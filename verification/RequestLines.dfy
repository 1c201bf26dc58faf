/** The form of a printed request, line by line. */
module RequestLines {
  import opened Prelude
  import opened Text
  import opened Header
  import opened Message
  import opened Request
  import DelimStream

  /** Each header as it stands in a request. */
  function HeaderLines(headers: seq<Header>): (lines: seq<string>)
    ensures |lines| == |headers|
    ensures forall i | 0 <= i < |lines| :: lines[i] == headers[i].key + ": " + headers[i].value
  {
    if headers == [] then [] else [headers[0].key + ": " + headers[0].value] + HeaderLines(headers[1..])
  }

  lemma {:induction false} JoinedHeaders(headers: seq<Header>, body: string)
    ensures PrintHeaders(headers) + body == DelimStream.Join(HeaderLines(headers) + [""], body, CRLF)
    decreases |headers|
  {
    var lines := HeaderLines(headers) + [""];
    if headers == [] {
      assert lines[1..] == [];
      assert DelimStream.Join(lines, body, CRLF) == "" + CRLF + DelimStream.Join([], body, CRLF);
    } else {
      JoinedHeaders(headers[1..], body);
      assert lines[1..] == HeaderLines(headers[1..]) + [""];
      var line, rest := headers[0].key + ": " + headers[0].value, PrintHeaders(headers[1..]);
      assert line + CRLF + rest + body == line + CRLF + (rest + body);
    }
  }

  /**
   * A printed request, cut at its line ends: method, path and version with spaces between them,
   * each header as key, colon, space and value, an empty line, and the body.
   */
  lemma PrintedLines(m: Content)
    requires Printable(m) && !Occurs(m.body, CRLF)
    ensures DelimStream.SplitAll(Print(m), CRLF) ==
            DelimStream.Split(
              [m.verb + " " + m.path + " " + m.version] + HeaderLines(m.headers) + [""], m.body)
  {
    var first, lines := InitialLine(m), HeaderLines(m.headers) + [""];
    JoinedHeaders(m.headers, m.body);
    assert ([first] + lines)[1..] == lines;
    assert Print(m) == first + CRLF + (PrintHeaders(m.headers) + m.body);
    assert Print(m) == DelimStream.Join([first] + lines, m.body, CRLF);
    assert [first] + HeaderLines(m.headers) + [""] == [first] + lines;
    forall item <- [first] + lines ensures DelimStream.Clean(item, CRLF) {
      InitialLineIsOneLine(m);
      var i :| 0 <= i < |[first] + lines| && ([first] + lines)[i] == item;
      if 0 < i <= |m.headers| {
        var h := m.headers[i - 1];
        assert h in m.headers && item == h.key + ": " + h.value;
        HeaderLineParses(h);
      }
      FindLineEnd(item, "");
      assert item + CRLF + "" == item + CRLF;
    }
    DelimStream.SplitOfJoin([first] + lines, m.body, CRLF);
  }

  const EXAMPLE := Content(
    "GET", "/", "HTTP/1.1", [Header("Host", "example.com"), Header("Server", "nginx")], "")

  const EXAMPLE_TEXT := "GET / HTTP/1.1" + CRLF + "Host: example.com" + CRLF + "Server: nginx" + CRLF + CRLF

  /** The request of test/http.cpp is read as the scenario expects, and printed as it was. */
  lemma ExampleRequest()
    ensures Print(EXAMPLE) == EXAMPLE_TEXT && Parse(BLANK, EXAMPLE_TEXT) == (Ok(""), EXAMPLE)
  {
    ExamplePrinted();
    ExamplePrintable();
    hide Print;
    hide Parse;
    hide Printable;
    hide EXAMPLE_TEXT;
    RoundTrip(EXAMPLE);
  }

  lemma ExamplePrinted()
    ensures Print(EXAMPLE) == EXAMPLE_TEXT
  {
    assert "GET" + " " + "/" + " " + "HTTP/1.1" == "GET / HTTP/1.1";
    assert "Host" + ": " + "example.com" == "Host: example.com" && "Server" + ": " + "nginx" == "Server: nginx";
    TwoHeaders(Header("Host", "example.com"), Header("Server", "nginx"));
    FourLines("GET / HTTP/1.1", "Host: example.com", "Server: nginx");
  }

  lemma TwoHeaders(a: Header, b: Header)
    ensures PrintHeaders([a, b]) == a.key + ": " + a.value + CRLF + (b.key + ": " + b.value + CRLF + CRLF)
  {
    assert [a, b][1..] == [b] && [b][1..] == [] && PrintHeaders([]) == CRLF;
  }

  lemma FourLines(a: string, b: string, c: string)
    ensures a + CRLF + (b + CRLF + (c + CRLF + CRLF)) + "" == a + CRLF + b + CRLF + c + CRLF + CRLF
  {
  }

  lemma ExamplePrintable()
    ensures Printable(EXAMPLE)
  {
    ExampleHeader();
    hide PrintableHeader;
    assert OneLine("GET") && OneLine("/") && OneLine("HTTP/1.1");
  }

  lemma ExampleHeader()
    ensures PrintableHeader(Header("Host", "example.com")) && PrintableHeader(Header("Server", "nginx"))
  {
    NormalExample();
    hide Normalized;
  }

  lemma NormalExample()
    ensures Normalized("Host") && Normalized("Server")
  {
  }
}
