/** What requests and responses share: include/net/asio/http/message.h. */
module Message {
  import opened Prelude
  import opened Text
  import opened Header

  /** The value of the first header that matches `k`. */
  function HeaderValue(headers: seq<Header>, k: string): Option<string> {
    if headers == [] then None
    else if Matches(headers[0], k) then Some(headers[0].value)
    else HeaderValue(headers[1..], k)
  }

  /** The list after setting `k`: the first match changes its value, or a header is added. */
  function SetHeader(headers: seq<Header>, k: string, v: string): seq<Header> {
    if headers == [] then [Make(k, v)]
    else if Matches(headers[0], k) then [headers[0].(value := v)] + headers[1..]
    else [headers[0]] + SetHeader(headers[1..], k, v)
  }

  /** After setting a header it has the new value, and every other lookup is unchanged. */
  lemma {:induction false} SetHeaderLaws(headers: seq<Header>, k: string, v: string, other: string)
    ensures HeaderValue(SetHeader(headers, k, v), k) == Some(v)
    ensures !EqualIgnoringCase(k, other) ==>
              HeaderValue(SetHeader(headers, k, v), other) == HeaderValue(headers, other)
    ensures |SetHeader(headers, k, v)| == |headers| + if HeaderValue(headers, k).Some? then 0 else 1
  {
    SameKeyIffEqualIgnoringCase(k, other);
    if headers != [] && !Matches(headers[0], k) {
      SetHeaderLaws(headers[1..], k, v, other);
      assert SetHeader(headers, k, v)[1..] == SetHeader(headers[1..], k, v);
    }
  }

  /** The first header that matches changes its value in its place; without one, the header is added behind. */
  lemma {:induction false} SetHeaderInPlace(headers: seq<Header>, k: string, v: string, i: nat)
    requires forall j | 0 <= j < |headers| && j < i :: !Matches(headers[j], k)
    ensures i < |headers| && Matches(headers[i], k) ==>
              SetHeader(headers, k, v) == headers[i := Header(headers[i].key, v)]
    ensures i == |headers| ==> SetHeader(headers, k, v) == headers + [Header(NormalizeKey(k), v)]
    decreases |headers|
  {
    if headers != [] && i > 0 {
      SetHeaderInPlace(headers[1..], k, v, i - 1);
      assert headers == [headers[0]] + headers[1..];
    }
  }

  method LookUp(headers: seq<Header>, k: string) returns (r: Option<string>)
    ensures r == HeaderValue(headers, k)
  {
    assert headers[0..] == headers;
    for i := 0 to |headers|
      invariant HeaderValue(headers, k) == HeaderValue(headers[i..], k)
    {
      if Matches(headers[i], k) {
        return Some(headers[i].value);
      }
    }
    return None;
  }

  method WithHeader(headers: seq<Header>, k: string, v: string) returns (r: seq<Header>)
    ensures r == SetHeader(headers, k, v)
  {
    assert headers == headers[..0] + headers[0..];
    for i := 0 to |headers|
      invariant SetHeader(headers, k, v) == headers[..i] + SetHeader(headers[i..], k, v)
    {
      SetHeaderFrom(headers, i, k, v);
      if Matches(headers[i], k) {
        return headers[i := headers[i].(value := v)];
      }
    }
    return headers + [Make(k, v)];
  }

  lemma SetHeaderFrom(headers: seq<Header>, i: nat, k: string, v: string)
    requires i < |headers|
    ensures headers[..i] + SetHeader(headers[i..], k, v) ==
            if Matches(headers[i], k) then headers[i := headers[i].(value := v)]
            else headers[..i + 1] + SetHeader(headers[i + 1..], k, v)
  {
    var rest := headers[i + 1..];
    assert headers[i..] == [headers[i]] + rest && headers[..i + 1] == headers[..i] + [headers[i]];
    var more := SetHeader(rest, k, v);
    assert headers[..i] + ([headers[i]] + more) == headers[..i + 1] + more;
  }

  /** One header line, cut at the first colon. */
  function ParseHeaderLine(line: string): Result<Header> {
    match Find(line, ":", 0)
    case None => Thrown(RuntimeError("No header name found"))
    case Some(i) => Ok(Make(line[..i], Trim(line[i + 1..])))
  }

  /** A line without a colon is the only one that is refused. */
  lemma HeaderLineFails(line: string)
    ensures if ':' in line then ParseHeaderLine(line).Ok?
            else ParseHeaderLine(line) == Thrown(RuntimeError("No header name found"))
  {
    FoundChar(line, ':');
  }

  /** A header that can be written as one line and read back unchanged. */
  predicate PrintableHeader(h: Header) {
    && ':' !in h.key && OneLine(h.key) && Normalized(h.key)
    && Trimmed(h.value) && OneLine(h.value)
  }

  /** What a line of the form `key:value` means, with any blanks around the value. */
  lemma ParseOfHeaderLine(key: string, left: string, value: string, right: string)
    requires ':' !in key && AllSpace(left) && Trimmed(value) && AllSpace(right)
    ensures ParseHeaderLine(key + ":" + (left + value + right)) == Ok(Make(key, value))
  {
    hide Find;
    var rest := left + value + right;
    var line := key + ":" + rest;
    FindChar(key, ':', rest);
    assert line[..|key|] == key && line[|key| + 1..] == rest;
    TrimOfPadded(left, value, right);
  }

  /** Everything read from a line is printable again. */
  lemma ParsedHeaderPrintable(line: string)
    requires OneLine(line)
    requires ParseHeaderLine(line).Ok?
    ensures PrintableHeader(ParseHeaderLine(line).value)
  {
    hide Find;
    FoundChar(line, ':');
    var i := Find(line, ":", 0).value;
    var key, raw := line[..i], line[i + 1..];
    assert line == key + ":" + raw && line == "" + key + line[i..] && line == line[..i + 1] + raw + "";
    OneLinePart("", key, line[i..]);
    OneLinePart(line[..i + 1], raw, "");
    NormalizedLine(key);
    NormalizeIdempotent(key);
    var left, right := TrimSplits(raw);
    OneLinePart(left, Trim(raw), right);
  }

  lemma NormalizedLine(key: string)
    requires ':' !in key && OneLine(key)
    ensures ':' !in NormalizeKey(key) && OneLine(NormalizeKey(key))
  {
    var n := NormalizeKey(key);
    assert forall i | 0 <= i < |n| :: n[i] in ":\r\n" ==> n[i] == key[i];
  }
}
