/**
  The CSV output of the command-line tool: the field escaper `EscapeCSV`
  (the closure defined twice, identically, in cmd/tldextract/main.go) and the
  five-field line written for each input.  A reader for such lines,
  `ParseRow`, is the partner against which the encoding is proved lossless.
 */
module CsvOutput {
  import opened GoStrings
  import opened TldExtract

  /** The characters that make EscapeCSV quote a field. */
  predicate NeedsQuotes(s: string) {
    ',' in s || '"' in s || '\n' in s
  }

  /** Go's Contains on a one-character pattern is membership. */
  lemma ContainsChar(s: string, c: char)
    ensures Contains(s, [c]) <==> c in s
  {
    IndexChar(s, c);
  }

  /**
    escapeCSV: a field holding a comma, a double quote or a newline is
    wrapped in double quotes with each inner quote doubled; any other field,
    one holding a lone carriage return included, is written as it is.
   */
  function EscapeCSV(s: string): (r: string)
    ensures r == s <==> !NeedsQuotes(s)
    ensures NeedsQuotes(s) ==> |r| == |s| + 2 + Count(s, '"')
    ensures NeedsQuotes(s) ==> |r| >= 2 && r[0] == '"' && r[|r| - 1] == '"'
  {
    ContainsChar(s, ',');
    ContainsChar(s, '"');
    ContainsChar(s, '\n');
    ReplaceAllLength(s, '"', "\"\"");
    if Contains(s, ",") || Contains(s, "\"") || Contains(s, "\n") then
      "\"" + ReplaceAll(s, '"', "\"\"") + "\""
    else s
  }

  /** Turns each doubled quote of a quoted field's content back into one. */
  function CollapseQuotes(t: string): string
    decreases |t|
  {
    if |t| >= 2 && t[0] == '"' && t[1] == '"' then "\"" + CollapseQuotes(t[2..])
    else if t == [] then ""
    else [t[0]] + CollapseQuotes(t[1..])
  }

  /** The value a CSV reader takes from one escaped field. */
  function UnescapeCSV(e: string): string {
    if |e| >= 2 && e[0] == '"' && e[|e| - 1] == '"' then CollapseQuotes(e[1..|e| - 1]) else e
  }

  lemma {:induction false} CollapseDoubled(s: string)
    ensures CollapseQuotes(ReplaceAll(s, '"', "\"\"")) == s
    decreases |s|
  {
    if s != [] {
      var d := ReplaceAll(s, '"', "\"\"");
      var tail := ReplaceAll(s[1..], '"', "\"\"");
      CollapseDoubled(s[1..]);
      if s[0] == '"' {
        assert d == "\"\"" + tail;
        assert d[2..] == tail;
      } else {
        assert d == [s[0]] + tail;
        assert d[1..] == tail;
      }
      assert s == [s[0]] + s[1..];
    }
  }

  /** Removing the outer quotes and collapsing doubled quotes recovers the field. */
  lemma EscapeRoundTrip(s: string)
    ensures UnescapeCSV(EscapeCSV(s)) == s
  {
    if NeedsQuotes(s) {
      var d := ReplaceAll(s, '"', "\"\"");
      var e := EscapeCSV(s);
      assert e[1..|e| - 1] == d;
      CollapseDoubled(s);
    } else if |s| >= 2 {
      assert s[0] in s;
    }
  }

  /** Length of a quoted field's content, `t` starting just after the opening quote. */
  function QuotedLen(t: string): (n: Option<nat>)
    ensures n.Some? ==> n.value < |t| && t[n.value] == '"'
    decreases |t|
  {
    if t == [] then None
    else if t[0] == '"' then
      if |t| >= 2 && t[1] == '"' then
        match QuotedLen(t[2..])
        case None => None
        case Some(k) => Some(k + 2)
      else Some(0)
    else
      match QuotedLen(t[1..])
      case None => None
      case Some(k) => Some(k + 1)
  }

  /** Length of an unquoted field: up to the next `,` or newline. */
  function UnquotedLen(t: string): (n: nat)
    ensures n <= |t|
    ensures forall i :: 0 <= i < n ==> t[i] != ',' && t[i] != '\n'
    ensures n < |t| ==> t[n] == ',' || t[n] == '\n'
    decreases |t|
  {
    if t == [] || t[0] == ',' || t[0] == '\n' then 0 else 1 + UnquotedLen(t[1..])
  }

  /** Length of the escaped field at the start of `s`. */
  function FieldLen(s: string): (n: Option<nat>)
    ensures n.Some? ==> n.value <= |s|
  {
    if s != [] && s[0] == '"' then
      match QuotedLen(s[1..])
      case None => None
      case Some(k) => Some(k + 2)
    else Some(UnquotedLen(s))
  }

  /** Reads one CSV record: escaped fields separated by `,`, ending with the line's newline. */
  function ParseRow(s: string): (fields: Option<seq<string>>)
    ensures fields.Some? ==> |fields.value| >= 1
    decreases |s|
  {
    match FieldLen(s)
    case None => None
    case Some(n) =>
      if n == |s| then None
      else if s[n] == '\n' then
        if n + 1 == |s| then Some([UnescapeCSV(s[..n])]) else None
      else if s[n] == ',' then
        match ParseRow(s[n + 1..])
        case None => None
        case Some(rest) => Some([UnescapeCSV(s[..n])] + rest)
      else None
  }

  /** The line holding `fields`, each escaped, separated by `,` and ended by a newline. */
  function EncodeRow(fields: seq<string>): string
    requires |fields| >= 1
    decreases |fields|
  {
    EscapeCSV(fields[0]) + (if |fields| == 1 then "\n" else "," + EncodeRow(fields[1..]))
  }

  /** A doubled quote adds two characters to the content's length. */
  lemma QuotedLenPair(t: string, rest: string)
    requires |t| >= 2 && t[0] == '"' && t[1] == '"' && t[2..] == rest
    ensures QuotedLen(rest).Some? ==> QuotedLen(t) == Some(QuotedLen(rest).value + 2)
  {
  }

  /** Any other character adds one. */
  lemma QuotedLenOther(t: string, rest: string)
    requires t != [] && t[0] != '"' && t[1..] == rest
    ensures QuotedLen(rest).Some? ==> QuotedLen(t) == Some(QuotedLen(rest).value + 1)
  {
  }

  lemma {:induction false} QuotedLenDoubled(s: string, tail: string)
    requires tail != [] && tail[0] == '"' && (|tail| == 1 || tail[1] != '"')
    ensures QuotedLen(ReplaceAll(s, '"', "\"\"") + tail) == Some(|ReplaceAll(s, '"', "\"\"")|)
    decreases |s|
  {
    var e := ReplaceAll(s, '"', "\"\"");
    if s == [] {
      assert e + tail == tail;
    } else {
      var d := ReplaceAll(s[1..], '"', "\"\"");
      QuotedLenDoubled(s[1..], tail);
      if s[0] == '"' {
        assert e == "\"\"" + d;
        assert e + tail == "\"\"" + (d + tail);
        QuotedLenPair(e + tail, d + tail);
        assert |e| == |d| + 2;
      } else {
        assert e == [s[0]] + d;
        assert e + tail == [s[0]] + (d + tail);
        QuotedLenOther(e + tail, d + tail);
        assert |e| == |d| + 1;
      }
    }
  }

  lemma {:induction false} UnquotedLenPlain(s: string, tail: string)
    requires ',' !in s && '\n' !in s
    requires tail != [] && (tail[0] == ',' || tail[0] == '\n')
    ensures UnquotedLen(s + tail) == |s|
    decreases |s|
  {
    if s != [] {
      assert (s + tail)[1..] == s[1..] + tail;
      UnquotedLenPlain(s[1..], tail);
    }
  }

  /** An escaped field followed by a separator is read back as exactly that field. */
  lemma FieldLenEscaped(f: string, tail: string)
    requires tail != [] && (tail[0] == ',' || tail[0] == '\n')
    ensures FieldLen(EscapeCSV(f) + tail) == Some(|EscapeCSV(f)|)
  {
    var e := EscapeCSV(f);
    if NeedsQuotes(f) {
      var d := ReplaceAll(f, '"', "\"\"");
      assert (e + tail)[1..] == d + ("\"" + tail);
      QuotedLenDoubled(f, "\"" + tail);
    } else {
      if f != [] { assert f[0] in f; }
      UnquotedLenPlain(f, tail);
    }
  }

  /** A line holding one field is read back as that field. */
  lemma ParseRowLast(f: string)
    ensures ParseRow(EscapeCSV(f) + "\n") == Some([f])
  {
    var e := EscapeCSV(f);
    var s := e + "\n";
    FieldLenEscaped(f, "\n");
    EscapeRoundTrip(f);
    assert s[..|e|] == e;
    assert s[|e|] == '\n';
  }

  /** A field and a comma in front of a line add that field in front of what is read. */
  lemma ParseRowCons(f: string, rest: string)
    ensures ParseRow(EscapeCSV(f) + "," + rest)
         == match ParseRow(rest) case None => None case Some(fs) => Some([f] + fs)
  {
    var e := EscapeCSV(f);
    var s := e + "," + rest;
    assert s == e + ("," + rest);
    FieldLenEscaped(f, "," + rest);
    EscapeRoundTrip(f);
    assert s[..|e|] == e;
    assert s[|e|] == ',';
    assert s[|e| + 1..] == rest;
  }

  /** Reading an encoded line gives back the fields. */
  lemma {:induction false} ParseEncodeRow(fields: seq<string>)
    requires |fields| >= 1
    ensures ParseRow(EncodeRow(fields)) == Some(fields)
    decreases |fields|
  {
    if |fields| == 1 {
      ParseRowLast(fields[0]);
      assert fields == [fields[0]];
    } else {
      EncodeRowCons(fields);
      ParseRowCons(fields[0], EncodeRow(fields[1..]));
      ParseEncodeRow(fields[1..]);
      assert fields == [fields[0]] + fields[1..];
    }
  }

  /**
    The line written for one input: input, subdomain, domain, tld and fqdn,
    escaped.  A reader recovers the five values from it, in header order.
   */
  function CsvRow(input: string, r: Result): (line: string)
    ensures ParseRow(line) == Some([input, r.Subdomain, r.Domain, r.TLD, r.FQDN()])
  {
    FiveFieldRow(input, r.Subdomain, r.Domain, r.TLD, r.FQDN());
    ParseEncodeRow([input, r.Subdomain, r.Domain, r.TLD, r.FQDN()]);
    EscapeCSV(input) + "," + EscapeCSV(r.Subdomain) + "," + EscapeCSV(r.Domain) + ","
      + EscapeCSV(r.TLD) + "," + EscapeCSV(r.FQDN()) + "\n"
  }

  /** A line of more than one field is the first escaped field, a comma and the rest. */
  lemma EncodeRowCons(fields: seq<string>)
    requires |fields| > 1
    ensures EncodeRow(fields) == EscapeCSV(fields[0]) + "," + EncodeRow(fields[1..])
  {
  }

  lemma Regroup5(e0: string, e1: string, e2: string, e3: string, e4: string)
    ensures e0 + "," + e1 + "," + e2 + "," + e3 + "," + e4 + "\n"
         == e0 + "," + (e1 + "," + (e2 + "," + (e3 + "," + (e4 + "\n"))))
  {
    var t3 := e3 + "," + (e4 + "\n");
    var t2 := e2 + "," + t3;
    var p2 := e0 + "," + e1 + "," + e2 + ",";
    assert p2 + e3 + "," + e4 + "\n" == p2 + t3;
    var p1 := e0 + "," + e1 + ",";
    assert p1 + e2 + "," + t3 == p1 + t2;
    var p0 := e0 + ",";
    assert p0 + e1 + "," + t2 == p0 + (e1 + "," + t2);
  }

  lemma EncodeRow5(a: string, b: string, c: string, d: string, e: string)
    ensures EncodeRow([a, b, c, d, e])
         == EscapeCSV(a) + "," + (EscapeCSV(b) + "," + (EscapeCSV(c) + "," + (EscapeCSV(d) + "," + (EscapeCSV(e) + "\n"))))
  {
    var fields := [a, b, c, d, e];
    assert fields[4..] == [e];
    assert fields[3..][1..] == fields[4..];
    assert fields[2..][1..] == fields[3..];
    assert fields[1..][1..] == fields[2..];
    EncodeRowCons(fields[3..]);
    EncodeRowCons(fields[2..]);
    EncodeRowCons(fields[1..]);
    EncodeRowCons(fields);
  }

  /** Five fields written as one line, the way CsvRow writes them, are one encoded row. */
  lemma FiveFieldRow(a: string, b: string, c: string, d: string, e: string)
    ensures EscapeCSV(a) + "," + EscapeCSV(b) + "," + EscapeCSV(c) + "," + EscapeCSV(d) + "," + EscapeCSV(e) + "\n"
         == EncodeRow([a, b, c, d, e])
  {
    EncodeRow5(a, b, c, d, e);
    Regroup5(EscapeCSV(a), EscapeCSV(b), EscapeCSV(c), EscapeCSV(d), EscapeCSV(e));
  }

  /** The header line printed before the rows when CSV output is chosen. */
  const CsvHeader: string := "input,subdomain,domain,tld,fqdn\n"

  lemma HeaderText()
    ensures "input" + "," + ("subdomain" + "," + ("domain" + "," + ("tld" + "," + ("fqdn" + "\n"))))
         == CsvHeader
  {
  }

  /** The header names the five columns in the order the rows write them. */
  lemma CsvHeaderColumns()
    ensures ParseRow(CsvHeader) == Some(["input", "subdomain", "domain", "tld", "fqdn"])
  {
    var names := ["input", "subdomain", "domain", "tld", "fqdn"];
    assert !NeedsQuotes("input") && !NeedsQuotes("subdomain") && !NeedsQuotes("domain");
    assert !NeedsQuotes("tld") && !NeedsQuotes("fqdn");
    EncodeRow5("input", "subdomain", "domain", "tld", "fqdn");
    assert EncodeRow(names) == "input" + "," + ("subdomain" + "," + ("domain" + "," + ("tld" + "," + ("fqdn" + "\n"))));
    HeaderText();
    ParseEncodeRow(names);
  }
}
