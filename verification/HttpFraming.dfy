/**
 * Where the body of a response ends, by section 3.3.3 of RFC 7230, and what the reader makes of
 * the same headers. Responses that never have a body are not treated apart.
 */
module HttpFraming {
  import opened Prelude
  import opened Text
  import opened Numbers
  import opened Header
  import opened Message
  import opened HttpReader
  import opened HttpWire

  // ---- The standard. ----

  datatype BodyLength = ByChunks | ByLength(bytes: nat) | UntilClose | Invalid

  /** All values given for a field; names are case-insensitive. */
  ghost function Values(fields: seq<Field>, name: string): seq<string> {
    if fields == [] then []
    else (if EqualIgnoringCase(fields[0].key, name) then [fields[0].value] else []) + Values(fields[1..], name)
  }

  /** Fields given more than once are one list. */
  function Listed(values: seq<string>): string
    requires values != []
  {
    if |values| == 1 then values[0] else values[0] + "," + Listed(values[1..])
  }

  /** The text after the last comma. */
  function LastPart(list: string): (part: string)
    ensures |part| <= |list| && list[|list| - |part|..] == part
    ensures |part| < |list| ==> list[|list| - |part| - 1] == ','
    ensures ',' !in part
  {
    if list == "" || list[|list| - 1] == ',' then "" else LastPart(list[..|list| - 1]) + [list[|list| - 1]]
  }

  /** The last element of a list; empty elements do not count. */
  function LastElement(list: string): string
    decreases |list|
  {
    var part := LastPart(list);
    if Trim(part) != "" || |part| == |list| then Trim(part) else LastElement(list[..|list| - |part| - 1])
  }

  /** Plain digits, and the same ones if the length is given more than once. */
  predicate ValidLengths(values: seq<string>)
    requires values != []
  {
    values[0] != "" && AllDigits(values[0], 10) && forall i | 0 <= i < |values| :: values[i] == values[0]
  }

  /** Transfer-Encoding decides, by its last coding; without it Content-Length; else the close. */
  ghost function StandardLength(fields: seq<Field>): BodyLength {
    var codings, lengths := Values(fields, "Transfer-Encoding"), Values(fields, "Content-Length");
    if codings != [] then
      if EqualIgnoringCase(LastElement(Listed(codings)), "chunked") then ByChunks else UntilClose
    else if lengths != [] then
      if ValidLengths(lengths) then ByLength(Scan(lengths[0], 10, 0)) else Invalid
    else UntilClose
  }

  // ---- The reader against the standard. ----

  /**
   * The reader reads the body that the standard defines, or gives up where the standard does. On an
   * invalid length it only throws: that section asks to close the connection, which stays open here.
   */
  predicate Agree(read: BodyRead, length: BodyLength) {
    match length
    case ByChunks => read == InChunks
    case ByLength(bytes) => read == Counted(bytes)
    case UntilClose => false
    case Invalid => read == BadLength
  }

  lemma {:induction false} FirstValue(fields: seq<Field>, name: string)
    ensures HeaderValue(Headers(fields), name) ==
            if Values(fields, name) == [] then None else Some(Values(fields, name)[0])
    decreases |fields|
  {
    if fields != [] {
      SameKeyIffEqualIgnoringCase(name, fields[0].key);
      assert EqualIgnoringCase(fields[0].key, name) == EqualIgnoringCase(name, fields[0].key);
      assert Headers(fields)[1..] == Headers(fields[1..]);
      FirstValue(fields[1..], name);
    }
  }

  /**
   * The reader follows the standard on exactly these headers. With Transfer-Encoding: there is
   * no Content-Length, the last coding is chunked, and its lower case name stands in the first
   * of the fields. Without it there is a Content-Length: plain digits below 2^31, the same ones
   * in every such field; or a value without a number in range where plain digits are required.
   */
  lemma FollowsStandardIff(fields: seq<Field>)
    ensures var codings, lengths := Values(fields, "Transfer-Encoding"), Values(fields, "Content-Length");
            Agree(BodyReadOf(Headers(fields)), StandardLength(fields)) <==>
            if codings != [] then
              && lengths == [] && EqualIgnoringCase(LastElement(Listed(codings)), "chunked")
              && Occurs(codings[0], "chunked")
            else
              lengths != [] &&
              if ValidLengths(lengths) then Scan(lengths[0], 10, 0) < INT_LIMIT else Stoi(lengths[0], 10).Thrown?
  {
    hide Stoi;
    hide Listed;
    hide LastElement;
    hide EqualIgnoringCase;
    hide HeaderValue;
    FirstValue(fields, "Content-Length");
    FirstValue(fields, "Transfer-Encoding");
    var codings, lengths := Values(fields, "Transfer-Encoding"), Values(fields, "Content-Length");
    if lengths != [] {
      StoiInRange(lengths[0], 10);
      if ValidLengths(lengths) {
        StoiOfDigits(lengths[0], 10);
      }
    }
    if codings != [] {
      FindsIffOccurs(codings[0], "chunked");
    }
  }

  /** With both fields the reader never follows the standard. */
  lemma BothFieldsDisagree(fields: seq<Field>)
    requires Values(fields, "Transfer-Encoding") != [] && Values(fields, "Content-Length") != []
    ensures !Agree(BodyReadOf(Headers(fields)), StandardLength(fields))
  {
    FollowsStandardIff(fields);
  }

  lemma {:induction false} LastElementOccurs(list: string)
    ensures Occurs(list, LastElement(list))
    decreases |list|
  {
    hide Trim;
    hide LastPart;
    var part := LastPart(list);
    var at := |list| - |part|;
    if Trim(part) != "" || |part| == |list| {
      var left, right := TrimSplits(part);
      OccursWithin(list[..at] + left, Trim(part), right);
      assert list == list[..at] + left + Trim(part) + right;
    } else {
      var rest := list[..at - 1];
      LastElementOccurs(rest);
      var i: nat :| OccursAt(rest, LastElement(rest), i);
      assert list[i..i + |LastElement(rest)|] == rest[i..i + |LastElement(rest)|];
      assert OccursAt(list, LastElement(list), i);
    }
  }

  lemma OccursWithin(before: string, s: string, after: string)
    ensures Occurs(before + s + after, s)
  {
    assert OccursAt(before + s + after, s, |before|);
  }

  /** A single Transfer-Encoding that ends in a lower case chunked is followed, whatever comes first. */
  lemma ChunkedLastIsFollowed(fields: seq<Field>, list: string)
    requires Values(fields, "Transfer-Encoding") == [list] && Values(fields, "Content-Length") == []
    requires LastElement(list) == "chunked"
    ensures Agree(BodyReadOf(Headers(fields)), StandardLength(fields)) && StandardLength(fields) == ByChunks
  {
    assert Listed([list]) == list;
    LastElementOccurs(list);
    FollowsStandardIff(fields);
  }
}
