/** HTTP requests as text: include/net/asio/http/request.h and message.h. */
module Request {
  import opened Prelude
  import opened Text
  import opened Header
  import opened Message

  datatype Content = Content(verb: string, path: string, version: string, headers: seq<Header>, body: string)

  /** A default-constructed request. */
  const BLANK := Content("", "", "", [], "")

  function PrintHeaders(headers: seq<Header>): string {
    if headers == [] then CRLF
    else headers[0].key + ": " + headers[0].value + CRLF + PrintHeaders(headers[1..])
  }

  function InitialLine(m: Content): string {
    m.verb + " " + m.path + " " + m.version
  }

  /** The bytes of a request. */
  function Print(m: Content): string {
    InitialLine(m) + CRLF + PrintHeaders(m.headers) + m.body
  }

  /** The initial line, cut at its first two spaces; what was cut before a throw stays set. */
  function ParseInitialLine(m: Content, line: string): (Result<()>, Content) {
    match Find(line, " ", 0)
    case None => (Thrown(RuntimeError("No request method found")), m)
    case Some(i) =>
      var m1 := m.(verb := line[..i]);
      match Find(line, " ", i + 1)
      case None => (Thrown(RuntimeError("No request path found")), m1)
      case Some(j) => (Ok(()), m1.(path := line[i + 1..j], version := line[j + 1..]))
  }

  /** Header lines up to the empty one; the rest of the text is handed to the body parser. */
  function ParseHeaders(m: Content, text: string): (Result<string>, Content)
    decreases |text|
  {
    match Find(text, CRLF, 0)
    case None => (Thrown(RuntimeError("Invalid data while parsing headers")), m)
    case Some(e) =>
      if e == 0 then (Ok(text[2..]), m)
      else
        match ParseHeaderLine(text[..e])
        case Thrown(error) => (Thrown(error), m)
        case Ok(h) => ParseHeaders(m.(headers := m.headers + [h]), text[e + 2..])
  }

  /** parse_data applied to a request with content `m`. */
  function Parse(m: Content, text: string): (Result<string>, Content) {
    match Find(text, CRLF, 0)
    case None => (Thrown(RuntimeError("Invalid initial line")), m)
    case Some(e) =>
      var (r, m1) := ParseInitialLine(m, text[..e]);
      match r
      case Thrown(error) => (Thrown(error), m1)
      case Ok(_) => ParseHeaders(m1, text[e + 2..])
  }

  /** The initial line is method, path and version, in that order; a space in the version stays. */
  lemma CutOfInitialLine(m: Content, verb: string, path: string, version: string)
    requires ' ' !in verb && ' ' !in path
    ensures ParseInitialLine(m, verb + " " + path + " " + version) ==
            (Ok(()), m.(verb := verb, path := path, version := version))
    ensures ParseInitialLine(m, verb + " " + path) ==
            (Thrown(RuntimeError("No request path found")), m.(verb := verb))
    ensures ParseInitialLine(m, verb) == (Thrown(RuntimeError("No request method found")), m)
  {
    hide Find;
    var next, rest := |verb| + 1, path + [' '] + version;
    var line, short := verb + " " + path + " " + version, verb + " " + path;
    assert line == verb + [' '] + rest && short == verb + [' '] + path;
    FindChar(verb, ' ', rest);
    FindChar(verb, ' ', path);
    FindChar(path, ' ', version);
    FoundChar(verb, ' ');
    FoundChar(path, ' ');
    assert line[next..] == rest && short[next..] == path;
    FindFrom(line, [' '], next, next);
    FindFrom(short, [' '], next, next);
    assert line[..|verb|] == verb && line[next..next + |path|] == path && short[..|verb|] == verb;
    assert line[next + |path| + 1..] == version;
  }

  /** A text without a line break, or with a malformed initial line, is refused. */
  lemma ParseFails(m: Content, line: string, rest: string)
    requires OneLine(line)
    ensures Parse(m, line) == (Thrown(RuntimeError("Invalid initial line")), m)
    ensures var (r, m1) := ParseInitialLine(m, line);
            r.Thrown? ==> Parse(m, line + CRLF + rest) == (Thrown(r.error), m1)
  {
    hide ParseInitialLine;
    hide ParseHeaders;
    OneLineIffNoCRLF(line);
    FindIsLeftmost(line, CRLF, 0, Find(line, CRLF, 0));
    FindLineEnd(line, rest);
    assert (line + CRLF + rest)[..|line|] == line;
  }

  /** The requests that survive being printed and parsed. */
  predicate Printable(m: Content) {
    && ' ' !in m.verb && OneLine(m.verb)
    && ' ' !in m.path && OneLine(m.path)
    && OneLine(m.version)
    && forall h <- m.headers :: PrintableHeader(h)
  }

  lemma InitialLineIsOneLine(m: Content)
    requires OneLine(m.verb) && OneLine(m.path) && OneLine(m.version)
    ensures OneLine(InitialLine(m))
  {
    OneLineJoin(m.verb, ' ', m.path);
    OneLineJoin(m.verb + [' '] + m.path, ' ', m.version);
    assert InitialLine(m) == (m.verb + [' '] + m.path) + [' '] + m.version;
  }

  lemma HeaderLineParses(h: Header)
    requires PrintableHeader(h)
    ensures var line := h.key + ": " + h.value;
            line != "" && OneLine(line) && ParseHeaderLine(line) == Ok(h)
  {
    hide Find;
    var line := h.key + ": " + h.value;
    OneLineJoin("", ' ', h.value);
    OneLineJoin(h.key, ':', "" + [' '] + h.value);
    assert line == h.key + [':'] + ("" + [' '] + h.value);
    assert line == h.key + ":" + (" " + h.value + "");
    ParseOfHeaderLine(h.key, " ", h.value, "");
  }

  lemma ParseOfInitialLine(start: Content, m: Content)
    requires ' ' !in m.verb && ' ' !in m.path
    ensures ParseInitialLine(start, InitialLine(m)) ==
            (Ok(()), start.(verb := m.verb, path := m.path, version := m.version))
  {
    hide ParseInitialLine;
    CutOfInitialLine(start, m.verb, m.path, m.version);
  }

  /** A header line without a colon, and headers without a line break behind them, are refused. */
  lemma HeadersFail(m: Content, line: string, rest: string)
    requires OneLine(line)
    ensures ParseHeaders(m, line) == (Thrown(RuntimeError("Invalid data while parsing headers")), m)
    ensures line != "" && ':' !in line ==>
              ParseHeaders(m, line + CRLF + rest) == (Thrown(RuntimeError("No header name found")), m)
  {
    hide Find;
    OneLineIffNoCRLF(line);
    FindIsLeftmost(line, CRLF, 0, Find(line, CRLF, 0));
    FindLineEnd(line, rest);
    HeaderLineFails(line);
    hide ParseHeaderLine;
    assert (line + CRLF + rest)[..|line|] == line;
  }

  lemma ParseHeadersStep(start: Content, line: string, rest: string)
    requires line != "" && OneLine(line) && ParseHeaderLine(line).Ok?
    ensures ParseHeaders(start, line + CRLF + rest) ==
            ParseHeaders(start.(headers := start.headers + [ParseHeaderLine(line).value]), rest)
  {
    hide Find;
    var text := line + CRLF + rest;
    FindLineEnd(line, rest);
    assert text[..|line|] == line && text[|line| + 2..] == rest;
  }

  lemma {:induction false} ParseOfHeaders(start: Content, headers: seq<Header>, body: string)
    requires forall h <- headers :: PrintableHeader(h)
    ensures ParseHeaders(start, PrintHeaders(headers) + body) ==
            (Ok(body), start.(headers := start.headers + headers))
    decreases |headers|
  {
    hide Find;
    hide PrintableHeader;
    hide ParseHeaderLine;
    var text := PrintHeaders(headers) + body;
    if headers == [] {
      assert text == "" + CRLF + body;
      FindLineEnd("", body);
      assert start.headers + headers == start.headers;
    } else {
      hide ParseHeaders;
      var h, rest := headers[0], PrintHeaders(headers[1..]) + body;
      var line := h.key + ": " + h.value;
      assert h in headers;
      HeaderLineParses(h);
      assert text == line + CRLF + rest;
      ParseHeadersStep(start, line, rest);
      ParseOfHeaders(start.(headers := start.headers + [h]), headers[1..], body);
      assert start.headers + [h] + headers[1..] == start.headers + headers;
    }
  }

  /** Whatever text was accepted, the parsed request is printable. */
  lemma {:induction false} ParsedHeadersPrintable(m: Content, text: string)
    requires ParseHeaders(m, text).0.Ok?
    requires forall h <- m.headers :: PrintableHeader(h)
    ensures var r := ParseHeaders(m, text).1;
            && (forall h <- r.headers :: PrintableHeader(h))
            && r == m.(headers := r.headers)
    decreases |text|
  {
    hide Find;
    var e := Find(text, CRLF, 0).value;
    if e != 0 {
      FoundLine(text);
      ParsedHeaderPrintable(text[..e]);
      var h := ParseHeaderLine(text[..e]).value;
      ParsedHeadersPrintable(m.(headers := m.headers + [h]), text[e + 2..]);
    }
  }

  lemma ParsedPrintable(text: string)
    requires Parse(BLANK, text).0.Ok?
    ensures Printable(Parse(BLANK, text).1)
  {
    hide Find;
    hide ParseHeaders;
    var e := Find(text, CRLF, 0).value;
    var line := text[..e];
    FoundLine(text);
    var m1 := ParseInitialLine(BLANK, line).1;
    ParsedInitialLine(line);
    ParsedHeadersPrintable(m1, text[e + 2..]);
  }

  /** Up to the first two blanks: no blank in either part, and no line end anywhere. */
  lemma PartsOfLine(line: string, i: nat, j: nat)
    requires OneLine(line) && Find(line, " ", 0) == Some(i) && Find(line, " ", i + 1) == Some(j)
    ensures ' ' !in line[..i] && ' ' !in line[i + 1..j]
    ensures OneLine(line[..i]) && OneLine(line[i + 1..j]) && OneLine(line[j + 1..])
  {
    hide Find;
    hide OneLine;
    FoundChar(line, ' ');
    FindFrom(line, " ", i + 1, i + 1);
    FoundChar(line[i + 1..], ' ');
    assert line[i + 1..][..j - i - 1] == line[i + 1..j];
    OneLineSlice(line, 0, i);
    OneLineSlice(line, i + 1, j);
    OneLineSlice(line, j + 1, |line|);
    assert line[0..i] == line[..i] && line[j + 1..|line|] == line[j + 1..];
  }

  lemma ParsedInitialLine(line: string)
    requires OneLine(line) && ParseInitialLine(BLANK, line).0.Ok?
    ensures Printable(ParseInitialLine(BLANK, line).1)
    ensures ParseInitialLine(BLANK, line).1.headers == []
  {
    hide Find;
    hide OneLine;
    var i := Find(line, " ", 0).value;
    PartsOfLine(line, i, Find(line, " ", i + 1).value);
  }

  /**
   * Parsing undoes printing: method, path, version and the ordered headers come back and the
   * body text reaches the body parser, for exactly the printable requests.
   */
  lemma RoundTrip(m: Content)
    ensures Parse(BLANK, Print(m)) == (Ok(m.body), m.(body := "")) <==> Printable(m)
  {
    hide Find;
    hide ParseHeaders;
    if Printable(m) {
      var line, rest := InitialLine(m), PrintHeaders(m.headers) + m.body;
      InitialLineIsOneLine(m);
      FindLineEnd(line, rest);
      assert Print(m) == line + CRLF + rest;
      assert (line + CRLF + rest)[..|line|] == line && (line + CRLF + rest)[|line| + 2..] == rest;
      ParseOfInitialLine(BLANK, m);
      ParseOfHeaders(BLANK.(verb := m.verb, path := m.path, version := m.version), m.headers, m.body);
      assert [] + m.headers == m.headers;
    }
    if Parse(BLANK, Print(m)) == (Ok(m.body), m.(body := "")) {
      ParsedPrintable(Print(m));
    }
  }

  class Request {
    var verb: string
    var path: string
    var version: string
    var headers: seq<Header>
    var body: string

    ghost function State(): Content
      reads this
    {
      Content(verb, path, version, headers, body)
    }

    constructor ()
      ensures State() == BLANK
    {
      verb, path, version, headers, body := "", "", "", [], "";
    }

    method Bytes() returns (s: string)
      ensures s == Print(State())
    {
      s := verb + " " + path + " " + version + CRLF;
      ghost var start := s;
      assert headers[0..] == headers;
      for i := 0 to |headers|
        invariant s + PrintHeaders(headers[i..]) == start + PrintHeaders(headers)
      {
        var h := headers[i];
        assert headers[i..][1..] == headers[i + 1..];
        ghost var line := h.key + ": " + h.value + CRLF;
        assert s + (line + PrintHeaders(headers[i + 1..])) == (s + line) + PrintHeaders(headers[i + 1..]);
        s := s + (h.key + ": " + h.value + CRLF);
      }
      s := s + CRLF;
      s := s + body;
    }

    method ParseFirstLine(line: string) returns (r: Result<()>)
      modifies this
      ensures (r, State()) == ParseInitialLine(old(State()), line)
    {
      var first := 0;
      var next := Find(line, " ", 0);
      if next.None? {
        return Thrown(RuntimeError("No request method found"));
      }
      verb := line[first..next.value];
      first := next.value + 1;
      next := Find(line, " ", first);
      if next.None? {
        return Thrown(RuntimeError("No request path found"));
      }
      path := line[first..next.value];
      version := line[next.value + 1..];
      r := Ok(());
    }

    method ParseData(text: string) returns (r: Result<string>)
      modifies this
      ensures (r, State()) == Parse(old(State()), text)
    {
      hide ParseHeaders;
      var end := Find(text, CRLF, 0);
      if end.None? {
        return Thrown(RuntimeError("Invalid initial line"));
      }
      var line := ParseFirstLine(text[..end.value]);
      if line.Thrown? {
        return Thrown(line.error);
      }
      r := ParseHeaderLines(text, end.value + 2);
    }

    /** The loop of parse_data over header lines, from the first one at `from`. */
    method ParseHeaderLines(text: string, from: nat) returns (r: Result<string>)
      requires from <= |text|
      modifies this
      ensures (r, State()) == ParseHeaders(old(State()), text[from..])
    {
      hide Find;
      hide ParseHeaderLine;
      var start := from;
      while true
        invariant start <= |text|
        invariant ParseHeaders(State(), text[start..]) == ParseHeaders(old(State()), text[from..])
        decreases |text| - start
      {
        var end := Find(text, CRLF, start);
        FindFrom(text, CRLF, start, start);
        if end.None? {
          return Thrown(RuntimeError("Invalid data while parsing headers"));
        }
        if start == end.value {
          assert text[start..][2..] == text[start + 2..];
          return Ok(text[start + 2..]);
        }
        assert text[start..][..end.value - start] == text[start..end.value];
        assert text[start..][end.value - start + 2..] == text[end.value + 2..];
        var h := ParseHeaderLine(text[start..end.value]);
        if h.Thrown? {
          return Thrown(h.error);
        }
        headers := headers + [h.value];
        start := end.value + 2;
      }
    }
  }
}
