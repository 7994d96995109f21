/**
 * Quoted CSV fields as RFC 4180 defines them (section 2, rules 5 to 7): a field
 * wrapped in double quotes, with each double quote inside it written twice.
 * `ParseRecord` is an independent reader for one such record; the export writer
 * is checked against it.
 */
module CsvFormat {
  import opened Wrappers
  import opened Text

  /** `s.replace(/"/g, '""')`: every double quote doubled. */
  function EscapeQuotes(s: string): string
    decreases |s|
  {
    if |s| == 0 then ""
    else if s[0] == '"' then "\"\"" + EscapeQuotes(s[1..])
    else [s[0]] + EscapeQuotes(s[1..])
  }

  /** Undoubling the quotes gives the original back. */
  lemma {:induction false} UnescapeEscape(s: string)
    ensures UnescapeQuotes(EscapeQuotes(s)) == s
    decreases |s|
  {
    if |s| > 0 {
      UnescapeEscape(s[1..]);
      var rest := EscapeQuotes(s[1..]);
      if s[0] == '"' {
        assert ("\"\"" + rest)[2..] == rest;
      } else {
        assert ([s[0]] + rest)[1..] == rest;
      }
      assert [s[0]] + s[1..] == s;
    }
  }

  /** A value without double quotes is written as it is. */
  lemma {:induction false} EscapeWithoutQuotes(s: string)
    requires '"' !in s
    ensures EscapeQuotes(s) == s
    decreases |s|
  {
    if |s| > 0 {
      EscapeWithoutQuotes(s[1..]);
      assert [s[0]] + s[1..] == s;
    }
  }

  /** Escaping adds and removes no character other than double quotes. */
  lemma {:induction false} EscapeKeepsChars(s: string, ch: char)
    requires ch != '"'
    ensures ch in EscapeQuotes(s) <==> ch in s
    decreases |s|
  {
    if |s| > 0 {
      EscapeKeepsChars(s[1..], ch);
      assert s == [s[0]] + s[1..];
    }
  }

  /** `s.replace(/""/g, '"')`: pairs of double quotes, read left to right, made single. */
  function UnescapeQuotes(s: string): string
    decreases |s|
  {
    if |s| == 0 then ""
    else if |s| >= 2 && s[0] == '"' && s[1] == '"' then "\"" + UnescapeQuotes(s[2..])
    else [s[0]] + UnescapeQuotes(s[1..])
  }

  /**
   * Reads the inside of a quoted field, starting just after its opening quote: the
   * field's value and what follows its closing quote, or None if it never closes.
   */
  function ReadQuoted(s: string): (r: Option<(string, string)>)
    ensures r.Some? ==> |r.value.1| < |s|
    decreases |s|
  {
    if |s| == 0 then None
    else if s[0] == '"' then
      if |s| >= 2 && s[1] == '"' then
        match ReadQuoted(s[2..])
        case None => None
        case Some((value, rest)) => Some(("\"" + value, rest))
      else Some(("", s[1..]))
    else
      match ReadQuoted(s[1..])
      case None => None
      case Some((value, rest)) => Some(([s[0]] + value, rest))
  }

  /** Reads a record of quoted fields separated by commas; None if it is not one. */
  function ParseRecord(s: string): (r: Option<seq<string>>)
    ensures r.Some? ==> |r.value| >= 1
    decreases |s|
  {
    if |s| == 0 || s[0] != '"' then None
    else
      match ReadQuoted(s[1..])
      case None => None
      case Some((value, rest)) =>
        if |rest| == 0 then Some([value])
        else if rest[0] != ',' then None
        else
          match ParseRecord(rest[1..])
          case None => None
          case Some(more) => Some([value] + more)
  }

  /** A quote inside a field that is not doubled closes it early: `"a"b` is not a record. */
  lemma StrayQuoteBreaksRecord(t: string)
    ensures ParseRecord("\"a\"b" + t) == None
  {
    var s := "\"a\"b" + t;
    var inner := s[1..];
    assert inner[1..] == "\"b" + t && inner[0] == 'a';
    var closing := "\"b" + t;
    assert closing[0] == '"' && closing[1] == 'b' && closing[1..] == "b" + t;
    assert ReadQuoted("\"b" + t) == Some(("", "b" + t));
    assert [inner[0]] + "" == "a";
    assert ReadQuoted(inner) == Some(("a", "b" + t));
  }

  /** A value written as a quoted field. */
  function QuoteField(value: string): string {
    "\"" + EscapeQuotes(value) + "\""
  }

  /** A record written as quoted fields separated by commas. */
  function EncodeRecord(values: seq<string>): string {
    Join(QuoteAll(values), ",")
  }

  /** Every value quoted, in order. */
  function QuoteAll(values: seq<string>): seq<string> {
    seq(|values|, k requires 0 <= k < |values| => QuoteField(values[k]))
  }

  /** A doubled quote inside a field reads as one quote of the value. */
  lemma ReadPair(t: string)
    ensures ReadQuoted("\"\"" + t) ==
      match ReadQuoted(t) case None => None case Some((value, rest)) => Some(("\"" + value, rest))
  {
    assert ("\"\"" + t)[2..] == t;
  }

  /** Any other character inside a field reads as itself. */
  lemma ReadOther(c: char, t: string)
    requires c != '"'
    ensures ReadQuoted([c] + t) ==
      match ReadQuoted(t) case None => None case Some((value, rest)) => Some(([c] + value, rest))
  {
    assert ([c] + t)[1..] == t;
  }

  /** The reader finds the end of an escaped value at its closing quote. */
  lemma {:induction false} ReadEscaped(value: string, rest: string)
    requires |rest| == 0 || rest[0] != '"'
    ensures ReadQuoted(EscapeQuotes(value) + "\"" + rest) == Some((value, rest))
    decreases |value|
  {
    if |value| == 0 {
      var s := "\"" + rest;
      assert EscapeQuotes(value) + "\"" + rest == s;
      assert s[1..] == rest;
    } else {
      ReadEscaped(value[1..], rest);
      ReadEscapedStep(value, rest);
    }
  }

  /** One more character in front of the value: a quote is read back from its pair. */
  lemma ReadEscapedStep(value: string, rest: string)
    requires |value| > 0
    requires ReadQuoted(EscapeQuotes(value[1..]) + "\"" + rest) == Some((value[1..], rest))
    ensures ReadQuoted(EscapeQuotes(value) + "\"" + rest) == Some((value, rest))
  {
    var inner := EscapeQuotes(value[1..]) + "\"" + rest;
    if value[0] == '"' {
      assert EscapeQuotes(value) + "\"" + rest == "\"\"" + inner;
      ReadPair(inner);
      assert "\"" + value[1..] == value;
    } else {
      assert EscapeQuotes(value) + "\"" + rest == [value[0]] + inner;
      ReadOther(value[0], inner);
      assert [value[0]] + value[1..] == value;
    }
  }

  /** Reading a written record gives back exactly its values. */
  lemma {:induction false} ParseEncodeRecord(values: seq<string>)
    requires |values| >= 1
    ensures ParseRecord(EncodeRecord(values)) == Some(values)
    decreases |values|
  {
    var fields := QuoteAll(values);
    var s := EncodeRecord(values);
    if |values| == 1 {
      assert fields == [QuoteField(values[0])];
      assert s == "\"" + (EscapeQuotes(values[0]) + "\"" + "");
      assert values == [values[0]];
      ReadEscaped(values[0], "");
      assert s[1..] == EscapeQuotes(values[0]) + "\"" + "";
    } else {
      var tail := EncodeRecord(values[1..]);
      assert fields[1..] == QuoteAll(values[1..]);
      assert s == "\"" + (EscapeQuotes(values[0]) + "\"" + ("," + tail));
      ReadEscaped(values[0], "," + tail);
      assert s[1..] == EscapeQuotes(values[0]) + "\"" + ("," + tail);
      assert ("," + tail)[1..] == tail;
      ParseEncodeRecord(values[1..]);
      assert [values[0]] + values[1..] == values;
    }
  }
}
