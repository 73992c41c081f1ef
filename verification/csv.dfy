/** CSV output: escapeCSV and the row layout written for each record.
    A field is quoted only when it holds a comma or a double quote, and a
    quoted field has every double quote written twice. Fields holding a
    newline are not quoted. */
module Csv {
  import opened Text
  import opened Scanner

  predicate NeedsQuoting(s: string) {
    ',' in s || '"' in s
  }

  /** `s` with every `"` written as `""`. */
  function DoubleQuotes(s: string): (r: string)
    decreases |s|
  {
    if s == [] then []
    else (if s[0] == '"' then "\"\"" else [s[0]]) + DoubleQuotes(s[1..])
  }

  /** The value escapeCSV returns. */
  function Escaped(s: string): string {
    if NeedsQuoting(s) then "\"" + DoubleQuotes(s) + "\"" else s
  }

  lemma {:induction false} DoubleQuotesAppend(a: string, b: string)
    ensures DoubleQuotes(a + b) == DoubleQuotes(a) + DoubleQuotes(b)
    decreases |a|
  {
    if a == [] {
      assert a + b == b;
    } else {
      assert (a + b)[0] == a[0] && (a + b)[1..] == a[1..] + b;
      DoubleQuotesAppend(a[1..], b);
    }
  }

  lemma {:induction false} DoubleQuotesNoQuote(s: string)
    requires '"' !in s
    ensures DoubleQuotes(s) == s
    decreases |s|
  {
    if s != [] {
      DoubleQuotesNoQuote(s[1..]);
    }
  }

  /** The body of a quoted field, read after its opening quote: `""` stands
      for one quote and a lone `"` closes the field. Gives the body and the
      text after the closing quote, or None when the field is not closed. */
  function ReadQuoted(t: string): (r: Option<(string, string)>)
    ensures r.Some? ==> |r.value.1| < |t|
    decreases |t|
  {
    if t == [] then None
    else if t[0] == '"' then
      if |t| >= 2 && t[1] == '"' then
        match ReadQuoted(t[2..])
        case None => None
        case Some((body, rest)) => Some(("\"" + body, rest))
      else Some(("", t[1..]))
    else
      match ReadQuoted(t[1..])
      case None => None
      case Some((body, rest)) => Some(([t[0]] + body, rest))
  }

  /** An unquoted field: everything up to the next comma. */
  function ReadPlain(t: string): (r: (string, string))
    ensures r.0 + r.1 == t
    ensures ',' !in r.0
    ensures r.1 == [] || r.1[0] == ','
    decreases |t|
  {
    if t == [] || t[0] == ',' then ("", t)
    else
      var (f, rest) := ReadPlain(t[1..]);
      ([t[0]] + f, rest)
  }

  /** How a CSV reader takes one field off the front of a row. */
  function ReadField(t: string): (r: Option<(string, string)>)
    ensures r.Some? ==> |r.value.1| <= |t|
  {
    if t != [] && t[0] == '"' then ReadQuoted(t[1..]) else Some(ReadPlain(t))
  }

  /** A CSV reader's split of one row (without its line end) into fields. */
  function ParseRow(t: string): (r: Option<seq<string>>)
    decreases |t|
  {
    match ReadField(t)
    case None => None
    case Some((f, rest)) =>
      if rest == [] then Some([f])
      else if rest[0] == ',' then
        match ParseRow(rest[1..])
        case None => None
        case Some(fs) => Some([f] + fs)
      else None
  }

  /** Fields separated by commas. */
  function JoinFields(fs: seq<string>): string
    decreases |fs|
  {
    if |fs| == 0 then ""
    else if |fs| == 1 then fs[0]
    else fs[0] + "," + JoinFields(fs[1..])
  }

  function EscapeAll(fs: seq<string>): (r: seq<string>)
    ensures |r| == |fs| && forall i :: 0 <= i < |fs| ==> r[i] == Escaped(fs[i])
  {
    seq(|fs|, i requires 0 <= i < |fs| => Escaped(fs[i]))
  }

  /** escapeCSV: copy the field; if it holds a comma or a quote, replace
      each quote by two, resuming the search two places after it, and wrap
      the result in quotes. A reader recovers the field exactly. */
  method EscapeCsv(str: string) returns (result: string)
    ensures result == Escaped(str)
    ensures ReadField(result) == Some((str, ""))
  {
    result := str;
    var comma := FindFrom(result, ",", 0);
    var quote := FindFrom(result, "\"", 0);
    if comma.Some? || quote.Some? {
      var pos: nat := 0;
      ghost var done: nat := 0;
      var found := FindFrom(result, "\"", pos);
      while found.Some?
        invariant done <= |str|
        invariant result == DoubleQuotes(str[..done]) + str[done..]
        invariant pos == |DoubleQuotes(str[..done])|
        invariant found == FindFrom(result, "\"", pos)
        decreases |str| - done
      {
        var q := found.value;
        done := QuoteFound(str, done, result, pos, q);
        result := result[..q] + "\"\"" + result[q + 1..];
        pos := q + 2;
        found := FindFrom(result, "\"", pos);
      }
      NoQuoteTail(str, done, result, pos);
      result := "\"" + result + "\"";
      assert NeedsQuoting(str) by {
        if comma.Some? {
          OccursChar(str, ',', comma.value);
        } else {
          OccursChar(str, '"', quote.value);
        }
      }
    } else {
      assert !NeedsQuoting(str) by {
        forall i | 0 <= i < |str| ensures str[i] != ',' && str[i] != '"' {
          FindFromFirst(str, ",", 0, i);
          FindFromFirst(str, "\"", 0, i);
          OccursChar(str, ',', i);
          OccursChar(str, '"', i);
        }
      }
    }
    ReadFieldEscaped(str, "");
    assert Escaped(str) + "" == Escaped(str);
  }

  /** One round of the escaping loop. The copy holds the doubled prefix
      `str[..done]` followed by the untouched rest, and the search from the
      end of the doubled prefix finds a quote at `q`: that quote is the
      first one in the rest, and replacing it by two extends the doubled
      prefix past it, with the search resuming right after the pair. */
  lemma QuoteFound(str: string, done: nat, result: string, pos: nat, q: nat) returns (done': nat)
    requires done <= |str|
    requires result == DoubleQuotes(str[..done]) + str[done..]
    requires pos == |DoubleQuotes(str[..done])|
    requires FindFrom(result, "\"", pos) == Some(q)
    ensures done < done' <= |str| && done' == done + (q - pos) + 1
    ensures q + 1 <= |result|
    ensures result[..q] + "\"\"" + result[q + 1..] == DoubleQuotes(str[..done']) + str[done'..]
    ensures q + 2 == |DoubleQuotes(str[..done'])|
  {
    var d := q - pos;
    assert forall j :: pos <= j < |result| ==> result[j] == str[done + (j - pos)];
    OccursChar(result, '"', q);
    forall j | done <= j < done + d ensures str[j] != '"' {
      FindFromFirst(result, "\"", pos, pos + (j - done));
      OccursChar(result, '"', pos + (j - done));
    }
    QuoteRunStep(str, done, d);
    done' := done + d + 1;
    assert result[..q] == DoubleQuotes(str[..done]) + str[done..done + d];
    assert result[q + 1..] == str[done'..];
  }

  /** A quote found `d` characters after the processed prefix, with none
      before it, extends the doubled prefix by those `d` characters and two
      quotes. */
  lemma QuoteRunStep(str: string, done: nat, d: nat)
    requires done <= |str|
    requires forall j :: done <= j < done + d ==> j < |str| && str[j] != '"'
    requires done + d < |str| && str[done + d] == '"'
    ensures DoubleQuotes(str[..done + d + 1]) == DoubleQuotes(str[..done]) + str[done..done + d] + "\"\""
  {
    assert str[..done + d + 1] == str[..done] + str[done..done + d] + ['"'];
    DoubleQuotesAppend(str[..done] + str[done..done + d], ['"']);
    DoubleQuotesAppend(str[..done], str[done..done + d]);
    DoubleQuotesNoQuote(str[done..done + d]);
  }

  /** When the search finds no further quote, the rest of the copy is the
      rest of the input and the doubling is complete. */
  lemma NoQuoteTail(str: string, done: nat, result: string, pos: nat)
    requires done <= |str|
    requires result == DoubleQuotes(str[..done]) + str[done..]
    requires pos == |DoubleQuotes(str[..done])|
    requires FindFrom(result, "\"", pos).None?
    ensures result == DoubleQuotes(str)
  {
    forall j | done <= j < |str| ensures str[j] != '"' {
      FindFromFirst(result, "\"", pos, pos + (j - done));
      OccursChar(result, '"', pos + (j - done));
    }
    assert str == str[..done] + str[done..];
    DoubleQuotesAppend(str[..done], str[done..]);
    DoubleQuotesNoQuote(str[done..]);
  }

  lemma {:induction false} ReadQuotedDoubled(s: string, tail: string)
    requires tail == [] || tail[0] != '"'
    ensures ReadQuoted(DoubleQuotes(s) + "\"" + tail) == Some((s, tail))
    decreases |s|
  {
    var t := DoubleQuotes(s) + "\"" + tail;
    if s == [] {
      assert t == "\"" + tail;
    } else {
      ReadQuotedDoubled(s[1..], tail);
      var t' := DoubleQuotes(s[1..]) + "\"" + tail;
      if s[0] == '"' {
        assert t == "\"\"" + t';
        assert t[2..] == t';
      } else {
        assert t == [s[0]] + t';
        assert t[1..] == t';
      }
      assert s == [s[0]] + s[1..];
    }
  }

  lemma {:induction false} ReadPlainUnquoted(s: string, tail: string)
    requires ',' !in s
    requires tail == [] || tail[0] == ','
    ensures ReadPlain(s + tail) == (s, tail)
    decreases |s|
  {
    if s == [] {
      assert s + tail == tail;
    } else {
      assert (s + tail)[0] == s[0] && (s + tail)[1..] == s[1..] + tail;
      ReadPlainUnquoted(s[1..], tail);
      assert s == [s[0]] + s[1..];
    }
  }

  /** A reader takes exactly the escaped field back off the front of the
      row, whatever follows it. */
  lemma ReadFieldEscaped(s: string, tail: string)
    requires tail == [] || tail[0] == ','
    ensures ReadField(Escaped(s) + tail) == Some((s, tail))
  {
    if NeedsQuoting(s) {
      var t := Escaped(s) + tail;
      assert t == "\"" + (DoubleQuotes(s) + "\"" + tail);
      assert t[1..] == DoubleQuotes(s) + "\"" + tail;
      ReadQuotedDoubled(s, tail);
    } else {
      ReadPlainUnquoted(s, tail);
      if s != [] {
        assert (s + tail)[0] == s[0];
      }
    }
  }

  /** Escaping the fields of a row and joining them with commas is undone
      by a CSV reader: the same fields come back, in order. */
  lemma {:induction false} ParseRowRoundTrip(fs: seq<string>)
    requires |fs| >= 1
    ensures ParseRow(JoinFields(EscapeAll(fs))) == Some(fs)
    decreases |fs|
  {
    var es := EscapeAll(fs);
    if |fs| == 1 {
      ReadFieldEscaped(fs[0], "");
      assert JoinFields(es) == Escaped(fs[0]) + "";
      assert fs == [fs[0]];
    } else {
      var rest := JoinFields(EscapeAll(fs[1..]));
      assert EscapeAll(fs)[1..] == EscapeAll(fs[1..]);
      assert JoinFields(es) == Escaped(fs[0]) + ("," + rest);
      ReadFieldEscaped(fs[0], "," + rest);
      assert ("," + rest)[1..] == rest;
      ParseRowRoundTrip(fs[1..]);
      assert fs == [fs[0]] + fs[1..];
    }
  }

  const Header: string := "Filename,Function Call,Argument,Tag,Identifier\n"

  function Fields(call: FunctionCall): seq<string> {
    [call.filename, call.fullCall, call.argument, call.tag, call.identifier]
  }

  /** One output line: the five escaped fields, comma-separated, then LF. */
  function Row(call: FunctionCall): string {
    JoinFields(EscapeAll(Fields(call))) + "\n"
  }

  /** The whole table: the header, then one row per record in order. */
  function Table(calls: seq<FunctionCall>): string
    decreases |calls|
  {
    if calls == [] then Header
    else Table(calls[..|calls| - 1]) + Row(calls[|calls| - 1])
  }

  /** Each row read back by a CSV reader gives the record's five fields in
      header order, whatever commas or quotes they hold. */
  lemma RowRoundTrip(call: FunctionCall)
    ensures Row(call)[|Row(call)| - 1] == '\n'
    ensures ParseRow(Row(call)[..|Row(call)| - 1]) == Some(Fields(call))
  {
    var line := JoinFields(EscapeAll(Fields(call)));
    assert Row(call)[..|Row(call)| - 1] == line;
    ParseRowRoundTrip(Fields(call));
  }

  /** A row written out field by field: each field escaped, a comma after
      each of the first four, LF at the end. */
  lemma RowLayout(call: FunctionCall)
    ensures Row(call) == Escaped(call.filename) + "," + Escaped(call.fullCall) + "," + Escaped(call.argument)
                         + "," + Escaped(call.tag) + "," + Escaped(call.identifier) + "\n"
  {
    var es := EscapeAll(Fields(call));
    assert es[1..][1..] == es[2..] && es[2..][1..] == es[3..] && es[3..][1..] == es[4..];
    assert JoinFields(es[4..]) == es[4];
    assert JoinFields(es[3..]) == es[3] + "," + es[4];
    assert JoinFields(es[2..]) == es[2] + "," + (es[3] + "," + es[4]);
    assert JoinFields(es[1..]) == es[1] + "," + (es[2] + "," + (es[3] + "," + es[4]));
  }

  lemma TableStep(calls: seq<FunctionCall>, i: nat)
    requires i < |calls|
    ensures Table(calls[..i + 1]) == Table(calls[..i]) + Row(calls[i])
  {
    assert calls[..i + 1][..i] == calls[..i];
  }

  /** The CSV output of main: the header line, then for each record, in
      order, its five fields escaped and separated by commas, and LF. */
  method WriteCsv(calls: seq<FunctionCall>) returns (out: string)
    ensures out == Table(calls)
  {
    out := Header;
    for i := 0 to |calls|
      invariant out == Table(calls[..i])
    {
      var call := calls[i];
      var filename := EscapeCsv(call.filename);
      var fullCall := EscapeCsv(call.fullCall);
      var argument := EscapeCsv(call.argument);
      var tag := EscapeCsv(call.tag);
      var identifier := EscapeCsv(call.identifier);
      var line := filename + "," + fullCall + "," + argument + "," + tag + "," + identifier + "\n";
      RowLayout(call);
      TableStep(calls, i);
      out := out + line;
    }
    assert calls[..|calls|] == calls;
  }
}
