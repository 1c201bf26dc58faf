/** Percent-encoding and query strings: include/net/asio/http/uri.h. */
module Uri {
  import opened Prelude
  import opened Text
  import opened Numbers
  import Header

  /** The characters of a std::string are bytes. */
  predicate IsBytes(s: string) {
    forall i | 0 <= i < |s| :: s[i] as nat < 256
  }

  predicate IsAscii(s: string) {
    forall i | 0 <= i < |s| :: s[i] as nat < 128
  }

  predicate IsUnreserved(c: char) {
    || '0' <= c <= '9' || 'a' <= c <= 'z' || 'A' <= c <= 'Z'
    || c == '.' || c == '_' || c == '~' || c == '-'
  }

  /**
   * A byte as std::hex with width 2 prints it. A byte from 128 on is a negative char, so it is
   * printed as a 32-bit number with six leading f. `fill` pads a number of one digit.
   */
  function HexText(c: char, fill: char): string
    requires c as nat < 256
  {
    var n := c as nat;
    var digits := [if n < 16 then fill else HexDigit(n / 16, false), HexDigit(n % 16, false)];
    if n < 128 then digits else "ffffff" + digits
  }

  function EncodeChar(c: char, fill: char): string
    requires c as nat < 256
  {
    if IsUnreserved(c) then [c] else "%" + HexText(c, fill)
  }

  /** `encoded` pads with '0'; `query::escape` has no fill character set and pads with a blank. */
  function Encode(s: string, fill: char): string
    requires IsBytes(s)
  {
    if s == "" then "" else EncodeChar(s[0], fill) + Encode(s[1..], fill)
  }

  function Prepend(s: string, r: Result<string>): Result<string> {
    match r case Ok(t) => Ok(s + t) case Thrown(_) => r
  }

  /** Reading the two characters after a percent sign with std::stoi(s, 0, 16). */
  function DecodeEscape(two: string): Result<char> {
    match Stoi(two, 16)
    case Ok(n) => Ok((n % 256) as char)
    case Thrown(error) => Thrown(error)
  }

  function Decode(s: string): Result<string> {
    if s == "" then Ok("")
    else if s[0] == '+' then Prepend(" ", Decode(s[1..]))
    else if s[0] == '%' then
      if |s| < 3 then Thrown(TruncatedEscape)
      else
        match DecodeEscape(s[1..3])
        case Ok(c) => Prepend([c], Decode(s[3..]))
        case Thrown(error) => Thrown(error)
    else Prepend([s[0]], Decode(s[1..]))
  }

  lemma PrependTwice(a: string, b: string, r: Result<string>)
    ensures Prepend(a, Prepend(b, r)) == Prepend(a + b, r)
  {
    match r case Ok(t) => assert a + (b + t) == (a + b) + t; case Thrown(_) =>
  }

  lemma DecodeEscapeOfHex(high: char, low: nat)
    requires low < 16
    requires high == ' ' || IsDigit(high, 16)
    ensures DecodeEscape([high, HexDigit(low, false)]) ==
            Ok((low + if high == ' ' then 0 else 16 * Digit(high)) as char)
  {
    var c := HexDigit(low, false);
    assert Digit(c) == low;
    assert Scan([c], 16, 0) == Scan("", 16, low) == low;
    if high == ' ' {
      assert [high, c][1..] == [c];
      assert TrimLeft([high, c]) == TrimLeft([c]) == [c];
    } else {
      var n := Digit(high);
      assert [high, c][1..] == [c];
      assert Scan([high, c], 16, 0) == Scan([c], 16, n) == Scan("", 16, n * 16 + low) == n * 16 + low;
      StoiOfDigits([high, c], 16);
    }
  }

  /** An ASCII character comes back from its encoding with either padding. */
  lemma DecodeAscii(c: char, fill: char, rest: string)
    requires c as nat < 128 && (fill == '0' || fill == ' ')
    ensures Decode(EncodeChar(c, fill) + rest) == Prepend([c], Decode(rest))
  {
    var n := c as nat;
    var s := EncodeChar(c, fill) + rest;
    if IsUnreserved(c) {
      assert s[1..] == rest;
    } else {
      var high := if n < 16 then fill else HexDigit(n / 16, false);
      assert n >= 16 ==> Digit(high) == n / 16;
      assert s[1..3] == [high, HexDigit(n % 16, false)] && s[3..] == rest;
      DecodeEscapeOfHex(high, n % 16);
    }
  }

  lemma PrependEmpty(r: Result<string>)
    ensures Prepend("", r) == r
  {
    match r case Ok(t) => assert "" + t == t; case Thrown(_) =>
  }

  lemma {:induction false} DecodePlain(plain: string, rest: string)
    requires forall i | 0 <= i < |plain| :: plain[i] != '+' && plain[i] != '%'
    ensures Decode(plain + rest) == Prepend(plain, Decode(rest))
  {
    hide DecodeEscape;
    if plain == "" {
      assert plain + rest == rest;
      PrependEmpty(Decode(rest));
    } else {
      assert (plain + rest)[1..] == plain[1..] + rest;
      DecodePlain(plain[1..], rest);
      assert [plain[0]] + plain[1..] == plain;
      PrependTwice([plain[0]], plain[1..], Decode(rest));
    }
  }

  /** Any other byte comes back as the byte 255 followed by six hexadecimal digits. */
  lemma DecodeNonAscii(c: char, fill: char, rest: string)
    requires 128 <= c as nat < 256
    ensures exists seven: string :: |seven| == 7 &&
              Decode(EncodeChar(c, fill) + rest) == Prepend(seven, Decode(rest))
  {
    var n := c as nat;
    var s := EncodeChar(c, fill) + rest;
    var plain := "ffff" + [HexDigit(n / 16, false), HexDigit(n % 16, false)];
    assert HexDigit(15, false) == 'f';
    assert s[1..3] == ['f', HexDigit(15, false)] && s[3..] == plain + rest;
    DecodeEscapeOfHex('f', 15);
    DecodePlain(plain, rest);
    PrependTwice([255 as char], plain, Decode(rest));
    assert |[255 as char] + plain| == 7;
  }

  /** Decoding is never shorter than the text, and longer for every byte that is not ASCII. */
  lemma {:induction false} DecodedLength(s: string, fill: char)
    requires IsBytes(s) && (fill == '0' || fill == ' ')
    ensures Decode(Encode(s, fill)).Ok?
    ensures |s| <= |Decode(Encode(s, fill)).value|
    ensures !IsAscii(s) ==> |s| < |Decode(Encode(s, fill)).value|
    decreases |s|
  {
    if s != "" {
      hide Decode;
      hide EncodeChar;
      DecodedLength(s[1..], fill);
      if s[0] as nat < 128 {
        DecodeAscii(s[0], fill, Encode(s[1..], fill));
      } else {
        DecodeNonAscii(s[0], fill, Encode(s[1..], fill));
      }
    }
  }

  /** Decoding undoes both encodings of a byte string exactly when it is ASCII. */
  lemma {:induction false} RoundTrip(s: string, fill: char)
    requires IsBytes(s) && (fill == '0' || fill == ' ')
    ensures Decode(Encode(s, fill)) == Ok(s) <==> IsAscii(s)
    decreases |s|
  {
    hide Decode;
    hide EncodeChar;
    DecodedLength(s, fill);
    if s == "" {
      DecodeNothing(fill);
    } else if IsAscii(s) {
      var c, rest := s[0], s[1..];
      DecodeAscii(c, fill, Encode(rest, fill));
      assert IsAscii(rest);
      RoundTrip(rest, fill);
      assert [c] + rest == s;
    }
    hide Encode;
  }

  lemma DecodeNothing(fill: char)
    ensures Decode(Encode("", fill)) == Ok("")
  {
  }

  const UNRESERVED := Header.CAPITAL + Header.SMALL + "0123456789" + "-._~"
  const HEX := "0123456789abcdef"

  lemma UnreservedListed(c: char)
    ensures IsUnreserved(c) <==> c in UNRESERVED
  {
    Header.LetterListed(c);
    hide Header.CAPITAL;
    hide Header.SMALL;
    assert forall i | 0 <= i < 10 :: "0123456789"[i] as int == '0' as int + i;
    assert '0' <= c <= '9' ==> "0123456789"[c as int - '0' as int] == c;
  }

  /**
   * What each byte becomes: itself, or its number in small hexadecimal digits, padded in front to
   * two of them, and with six more in front for a byte from 128 on.
   */
  lemma EncodedByte(c: char, fill: char)
    requires c as nat < 256
    ensures EncodeChar(c, fill) ==
            if c in UNRESERVED then [c]
            else "%" + (if c as nat < 128 then "" else "ffffff") +
                 [if c as nat < 16 then fill else HEX[c as nat / 16], HEX[c as nat % 16]]
  {
    UnreservedListed(c);
    HexListed(c as nat / 16);
    HexListed(c as nat % 16);
  }

  lemma HexListed(d: nat)
    requires d < 16
    ensures HexDigit(d, false) == HEX[d]
  {
  }

  /** In a query a number of one digit is padded with a blank, which `encoded` pads with a zero. */
  lemma PaddingOfQueries(c: char)
    requires c as nat < 16
    ensures EncodeQuery(Query([c], [c])) == "%" + [' '] + [HEX[c as nat]] + "=" + ("%" + [' '] + [HEX[c as nat]])
    ensures Encode([c], '0') == "%" + ['0'] + [HEX[c as nat]]
  {
    EncodeSmall(c, ' ');
    EncodeSmall(c, '0');
    hide Encode;
    hide HEX;
  }

  lemma EncodeSmall(c: char, fill: char)
    requires c as nat < 16
    ensures Encode([c], fill) == "%" + [fill, HEX[c as nat]]
    ensures "%" + [fill, HEX[c as nat]] == "%" + [fill] + [HEX[c as nat]]
  {
    HexListed(c as nat);
    EncodeOne(c, fill);
    hide Encode;
    hide HEX;
  }

  lemma EncodeOne(c: char, fill: char)
    requires c as nat < 256
    ensures Encode([c], fill) == EncodeChar(c, fill)
  {
    hide EncodeChar;
    assert [c][1..] == "" && EncodeChar(c, fill) + "" == EncodeChar(c, fill);
  }

  /** A text is its own encoding exactly if all its characters are unreserved. */
  lemma {:induction false} EncodedUnchangedIff(s: string, fill: char)
    requires IsBytes(s)
    ensures |Encode(s, fill)| >= |s|
    ensures Encode(s, fill) == s <==> forall c <- s :: c in UNRESERVED
    decreases |s|
  {
    if s != "" {
      var c, rest := s[0], s[1..];
      EncodedByte(c, fill);
      EncodedUnchangedIff(rest, fill);
      hide EncodeChar;
      hide UNRESERVED;
      assert s == [c] + rest && forall d :: d in s <==> d == c || d in rest;
      if c in UNRESERVED {
        assert Encode(s, fill)[1..] == Encode(rest, fill);
      }
    }
  }

  /** Without a percent sign, decoding only makes a space of each plus sign. */
  lemma {:induction false} DecodeWithoutEscapes(s: string)
    requires '%' !in s
    ensures Decode(s).Ok? && |Decode(s).value| == |s|
    ensures forall i | 0 <= i < |s| :: Decode(s).value[i] == if s[i] == '+' then ' ' else s[i]
    decreases |s|
  {
    hide DecodeEscape;
    if s != "" {
      DecodeWithoutEscapes(s[1..]);
    }
  }

  /** A percent sign with fewer than two characters behind it is where decoding stops. */
  lemma {:induction false} DecodeTruncated(plain: string, short: string)
    requires '%' !in plain && |short| < 2
    ensures Decode(plain + ("%" + short)) == Thrown(TruncatedEscape)
    decreases |plain|
  {
    hide DecodeEscape;
    if plain == "" {
      assert plain + ("%" + short) == "%" + short;
    } else {
      assert (plain + ("%" + short))[1..] == plain[1..] + ("%" + short);
      DecodeTruncated(plain[1..], short);
    }
  }

  /**
   * The two characters behind a percent sign as std::stoi reads them: two hexadecimal digits, or
   * one digit with something else behind it or with a blank or a sign in front; otherwise no number.
   */
  lemma EscapeValues(a: char, b: char, rest: string)
    ensures Decode("%" + [a, b] + rest) ==
            if IsDigit(a, 16) then
              Prepend([(if IsDigit(b, 16) then 16 * Digit(a) + Digit(b) else Digit(a)) as char], Decode(rest))
            else if IsDigit(b, 16) && a == '-' then Prepend([((256 - Digit(b)) % 256) as char], Decode(rest))
            else if IsDigit(b, 16) && (a == '+' || IsSpace(a)) then Prepend([Digit(b) as char], Decode(rest))
            else Thrown(InvalidNumber)
  {
    DecodeOfEscape([a, b], rest);
    EscapeNumber(a, b);
    DigitSmall(a);
    DigitSmall(b);
    hide Digit;
    hide Stoi;
    hide Decode;
    hide Prepend;
  }

  lemma DigitSmall(c: char)
    ensures Digit(c) <= 16
  {
  }

  lemma DecodeOfEscape(two: string, rest: string)
    requires |two| == 2
    ensures Decode("%" + two + rest) ==
            if DecodeEscape(two).Ok? then Prepend([DecodeEscape(two).value], Decode(rest))
            else Thrown(DecodeEscape(two).error)
  {
    hide DecodeEscape;
    hide Prepend;
    var s := "%" + two + rest;
    assert s[1..3] == two && s[3..] == rest;
  }

  lemma EscapeNumber(a: char, b: char)
    ensures Stoi([a, b], 16) ==
            if IsDigit(a, 16) then Ok(if IsDigit(b, 16) then 16 * Digit(a) + Digit(b) else Digit(a))
            else if IsDigit(b, 16) && a == '-' then Ok(-(Digit(b) as int))
            else if IsDigit(b, 16) && (a == '+' || IsSpace(a)) then Ok(Digit(b))
            else Thrown(InvalidNumber)
  {
    hide Stoi;
    hide Scan;
    assert [a, b] == "" + ("" + ("" + ([a] + [b]))) == "" + ("" + ("" + ([a, b] + "")));
    assert [a, b] == "" + ([a] + ("" + ([b] + ""))) == [a] + ("" + ("" + ([b] + "")));
    assert [a, b] == "" + ([a] + [b]) == "" + ("" + [a, b]) == [a] + ("" + [b]);
    if IsDigit(a, 16) {
      OneOrTwoDigits(a, b);
      if IsDigit(b, 16) {
        StoiReads("", "", "", [a, b], "", 16);
      } else {
        StoiReads("", "", "", [a], [b], 16);
      }
    } else if a == '-' || a == '+' {
      if IsDigit(b, 16) {
        OneOrTwoDigits(b, a);
        StoiReads("", [a], "", [b], "", 16);
      } else {
        StoiFails("", [a], [b], 16);
      }
    } else if IsSpace(a) {
      if IsDigit(b, 16) {
        OneOrTwoDigits(b, a);
        StoiReads([a], "", "", [b], "", 16);
      } else {
        BlankThenNone(a, b);
      }
    } else {
      StoiFails("", "", [a, b], 16);
    }
  }

  lemma OneOrTwoDigits(a: char, b: char)
    requires IsDigit(a, 16)
    ensures Scan([a], 16, 0) == Digit(a)
    ensures IsDigit(b, 16) ==> Scan([a, b], 16, 0) == 16 * Digit(a) + Digit(b)
  {
    assert [a][1..] == "" && [a, b][1..] == [b] && [b][1..] == "";
    assert Scan("", 16, Digit(a)) == Digit(a);
    assert IsDigit(b, 16) ==> Scan([b], 16, Digit(a)) == Scan("", 16, Digit(a) * 16 + Digit(b));
  }

  lemma BlankThenNone(a: char, b: char)
    requires IsSpace(a) && !IsDigit(b, 16)
    ensures Stoi([a, b], 16) == Thrown(InvalidNumber)
  {
    if b == '-' || b == '+' {
      assert [a, b] == [a] + ([b] + "");
      StoiFails([a], [b], "", 16);
    } else if IsSpace(b) {
      assert [a, b] == [a, b] + ("" + "");
      StoiFails([a, b], "", "", 16);
    } else {
      assert [a, b] == [a] + ("" + [b]);
      StoiFails([a], "", [b], 16);
    }
  }

  /** Encoded text holds unreserved characters, percent signs and padding, and nothing else. */
  lemma {:induction false} EncodedCharacters(s: string, fill: char)
    requires IsBytes(s)
    ensures forall c <- Encode(s, fill) :: IsUnreserved(c) || c == '%' || c == fill
    decreases |s|
  {
    if s != "" {
      EncodedCharacters(s[1..], fill);
      var head := EncodeChar(s[0], fill);
      assert forall c <- head :: IsUnreserved(c) || c == '%' || c == fill;
      forall c | c in Encode(s, fill) ensures IsUnreserved(c) || c == '%' || c == fill {
        assert c in head || c in Encode(s[1..], fill);
      }
    }
  }

  method Encoded(s: string) returns (out: string)
    requires IsBytes(s)
    ensures out == Encode(s, '0')
  {
    out := EncodeLoop(s, '0');
  }

  method Escape(s: string) returns (out: string)
    requires IsBytes(s)
    ensures out == Encode(s, ' ')
  {
    out := EncodeLoop(s, ' ');
  }

  /** The loop of `encoded` and of `query::escape`. */
  method EncodeLoop(s: string, fill: char) returns (out: string)
    requires IsBytes(s)
    ensures out == Encode(s, fill)
  {
    hide Encode;
    hide HexText;
    out := "";
    EncodeEnds(s, fill);
    for i := 0 to |s|
      invariant out + Encode(s[i..], fill) == Encode(s, fill)
    {
      EncodeStep(out, s, i, fill);
      if IsUnreserved(s[i]) {
        out := out + [s[i]];
      } else {
        out := out + ("%" + HexText(s[i], fill));
      }
    }
    assert out + "" == out;
  }

  lemma EncodeEnds(s: string, fill: char)
    requires IsBytes(s)
    ensures Encode(s[|s|..], fill) == "" && "" + Encode(s[0..], fill) == Encode(s, fill)
  {
    assert s[0..] == s;
  }

  lemma EncodeFrom(s: string, i: nat, fill: char)
    requires IsBytes(s) && i < |s|
    ensures Encode(s[i..], fill) == EncodeChar(s[i], fill) + Encode(s[i + 1..], fill)
  {
    assert s[i..][1..] == s[i + 1..];
  }

  lemma EncodeStep(out: string, s: string, i: nat, fill: char)
    requires IsBytes(s) && i < |s|
    ensures out + Encode(s[i..], fill) == out + EncodeChar(s[i], fill) + Encode(s[i + 1..], fill)
  {
    EncodeFrom(s, i, fill);
  }

  method Decoded(s: string) returns (r: Result<string>)
    ensures r == Decode(s)
  {
    var out := "";
    var it := 0;
    assert s[0..] == s;
    PrependEmpty(Decode(s));
    while it != |s|
      invariant it <= |s|
      invariant Prepend(out, Decode(s[it..])) == Decode(s)
      decreases |s| - it
    {
      var piece;
      ghost var from := it;
      if s[it] == '+' {
        piece := ' ';
      } else if s[it] == '%' {
        it := it + 1;
        if |s| < it + 2 {
          return Thrown(TruncatedEscape);
        }
        assert s[from..][1..3] == s[it..it + 2];
        var c := DecodeEscape(s[it..it + 2]);
        if c.Thrown? {
          return Thrown(c.error);
        }
        piece := c.value;
        it := it + 1;
        assert s[from..][3..] == s[it + 1..];
      } else {
        piece := s[it];
      }
      it := it + 1;
      assert it == from + 1 ==> s[from..][1..] == s[it..];
      PrependTwice(out, [piece], Decode(s[it..]));
      out := out + [piece];
    }
    assert out + "" == out;
    r := Ok(out);
  }

  datatype Query = Query(key: string, value: string)

  predicate IsAsciiQuery(q: Query) {
    IsAscii(q.key) && IsAscii(q.value)
  }

  predicate IsByteQuery(q: Query) {
    IsBytes(q.key) && IsBytes(q.value)
  }

  predicate AllAscii(qs: seq<Query>) {
    forall i | 0 <= i < |qs| :: IsAsciiQuery(qs[i])
  }

  predicate AllBytes(qs: seq<Query>) {
    forall i | 0 <= i < |qs| :: IsByteQuery(qs[i])
  }

  function EncodeQuery(q: Query): string
    requires IsByteQuery(q)
  {
    Encode(q.key, ' ') + "=" + Encode(q.value, ' ')
  }

  /** What `operator<<` makes of the query string. */
  function AddQuery(query: string, q: Query): string
    requires IsByteQuery(q)
  {
    (if query != "" then query + "&" else query) + EncodeQuery(q)
  }

  function AddQueries(query: string, qs: seq<Query>): string
    requires AllBytes(qs)
    decreases |qs|
  {
    if qs == [] then query else AddQueries(AddQuery(query, qs[0]), qs[1..])
  }

  class Uri {
    var query: string

    constructor ()
      ensures query == ""
    {
      query := "";
    }

    method Add(q: Query)
      requires IsByteQuery(q)
      modifies this
      ensures query == AddQuery(old(query), q)
    {
      if query != "" {
        query := query + "&";
      }
      var key := Escape(q.key);
      var value := Escape(q.value);
      query := query + (key + "=" + value);
    }
  }

  /** Reads a pair cut at its first '='. */
  function ReadPair(text: string): Result<Query> {
    var (k, v) :=
      match Find(text, "=", 0)
      case None => (text, "")
      case Some(i) => (text[..i], text[i + 1..]);
    match (Decode(k), Decode(v))
    case (Ok(key), Ok(value)) => Ok(Query(key, value))
    case (Thrown(error), _) => Thrown(error)
    case (_, Thrown(error)) => Thrown(error)
  }

  function ReadAll(first: Result<Query>, rest: Result<seq<Query>>): Result<seq<Query>> {
    match (first, rest)
    case (Ok(q), Ok(qs)) => Ok([q] + qs)
    case (Thrown(error), _) => Thrown(error)
    case (_, Thrown(error)) => Thrown(error)
  }

  /** An independent reading of a query: cut at every '&', each piece at its first '='. */
  function ReadQuery(query: string): Result<seq<Query>>
    decreases |query|
  {
    if query == "" then Ok([])
    else
      match Find(query, "&", 0)
      case None => ReadAll(ReadPair(query), Ok([]))
      case Some(i) => ReadAll(ReadPair(query[..i]), ReadQuery(query[i + 1..]))
  }

  lemma CutAtEquals(k: string, v: string)
    ensures (k + "=" + v)[..|k|] == k && (k + "=" + v)[|k| + 1..] == v && k + "=" + v == k + ['='] + v
  {
  }

  lemma ReadPairOfEncoded(q: Query)
    requires IsByteQuery(q)
    ensures ReadPair(EncodeQuery(q)).Ok?
    ensures ReadPair(EncodeQuery(q)) == Ok(q) <==> IsAsciiQuery(q)
    ensures '&' !in EncodeQuery(q) && EncodeQuery(q) != ""
  {
    hide Find;
    hide Decode;
    hide Encode;
    var k, v := Encode(q.key, ' '), Encode(q.value, ' ');
    EncodedCharacters(q.key, ' ');
    EncodedCharacters(q.value, ' ');
    FindChar(k, '=', v);
    CutAtEquals(k, v);
    DecodedLength(q.key, ' ');
    DecodedLength(q.value, ' ');
    RoundTrip(q.key, ' ');
    RoundTrip(q.value, ' ');
  }

  /** The query string of a list of pairs, read from the front. */
  function JoinQueries(qs: seq<Query>): string
    requires AllBytes(qs)
  {
    if qs == [] then ""
    else if |qs| == 1 then EncodeQuery(qs[0])
    else EncodeQuery(qs[0]) + "&" + JoinQueries(qs[1..])
  }

  lemma {:induction false} AddQueriesIsJoin(query: string, qs: seq<Query>)
    requires AllBytes(qs)
    requires query != "" && qs != []
    ensures AddQueries(query, qs) == query + "&" + JoinQueries(qs)
    decreases |qs|
  {
    hide EncodeQuery;
    var next := AddQuery(query, qs[0]);
    if |qs| == 1 {
      assert AddQueries(next, qs[1..]) == next;
    } else {
      AddQueriesIsJoin(next, qs[1..]);
      assert query + "&" + EncodeQuery(qs[0]) + "&" + JoinQueries(qs[1..]) ==
             query + "&" + (EncodeQuery(qs[0]) + "&" + JoinQueries(qs[1..]));
    }
  }

  lemma {:induction false} ReadOfJoin(qs: seq<Query>)
    requires AllBytes(qs)
    ensures ReadQuery(JoinQueries(qs)).Ok?
    ensures ReadQuery(JoinQueries(qs)) == Ok(qs) <==> AllAscii(qs)
    ensures qs != [] ==> JoinQueries(qs) != ""
    decreases |qs|
  {
    hide Find;
    hide ReadPair;
    hide IsAsciiQuery;
    hide EncodeQuery;
    if qs != [] {
      var first := EncodeQuery(qs[0]);
      ReadPairOfEncoded(qs[0]);
      if |qs| == 1 {
        FoundChar(first, '&');
        assert [qs[0]] + [] == qs;
        assert ReadQuery(first) == Ok([ReadPair(first).value] + []);
      } else {
        var rest := JoinQueries(qs[1..]);
        ReadOfJoin(qs[1..]);
        FindChar(first, '&', rest);
        var text := JoinQueries(qs);
        assert text == first + ['&'] + rest && text != "";
        assert text[..|first|] == first && text[|first| + 1..] == rest;
        ghost var read := ReadQuery(text).value;
        assert read[0] == ReadPair(first).value && read[1..] == ReadQuery(rest).value;
        assert AllAscii(qs) <==> IsAsciiQuery(qs[0]) && AllAscii(qs[1..]);
        assert [qs[0]] + qs[1..] == qs;
      }
    }
  }

  lemma AddQueriesJoins(qs: seq<Query>)
    requires AllBytes(qs)
    ensures AddQueries("", qs) == JoinQueries(qs)
  {
    hide EncodeQuery;
    if qs != [] {
      var first := AddQuery("", qs[0]);
      assert first == EncodeQuery(qs[0]);
      if |qs| == 1 {
        assert AddQueries(first, qs[1..]) == first;
      } else {
        ReadPairOfEncoded(qs[0]);
        AddQueriesIsJoin(first, qs[1..]);
      }
    }
  }

  /** Pairs added one by one to an empty query are read back in order, if all are ASCII. */
  lemma QueryRoundTrip(qs: seq<Query>)
    requires AllBytes(qs)
    ensures ReadQuery(AddQueries("", qs)) == Ok(qs) <==> AllAscii(qs)
  {
    AddQueriesJoins(qs);
    ReadOfJoin(qs);
    hide *;
  }
}
