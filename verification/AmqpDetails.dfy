/** AMQP connection strings: include/net/asio/amqp/connection_details.h and src/amqp.cpp. */
module AmqpDetails {
  import opened Prelude
  import opened Text
  import opened Numbers
  import opened Header

  datatype Details = Details(
    host: string, user: string, password: string, vhost: string, port: nat, protocol: string)

  datatype Auth = Auth(user: string, password: string)

  /** What the capture groups after the optional authentication hold. */
  datatype Place = Place(host: string, port: Option<string>, vhost: Option<string>)

  /** A match of the whole regular expression. */
  datatype Groups = Groups(protocol: string, auth: Option<Auth>, place: Place)

  // ---- The language of the regular expression: which captures spell which text. ----

  predicate ProperPlace(p: Place) {
    && p.host != "" && ':' !in p.host && '/' !in p.host
    && (p.port.Some? ==> p.port.value != "" && AllDigits(p.port.value, 10))
  }

  predicate ProperAuth(a: Auth) {
    ':' !in a.user && '@' !in a.password
  }

  predicate ProperProtocol(p: string) {
    LowerAll(p) == "amqp" || LowerAll(p) == "amqps"
  }

  predicate Proper(g: Groups) {
    && ProperProtocol(g.protocol)
    && (g.auth.Some? ==> ProperAuth(g.auth.value))
    && ProperPlace(g.place)
  }

  function VhostText(vhost: Option<string>): string {
    if vhost.Some? then "/" + vhost.value else ""
  }

  function TailText(p: Place): string {
    (if p.port.Some? then ":" + p.port.value else "") + VhostText(p.vhost)
  }

  function PlaceText(p: Place): string {
    p.host + TailText(p)
  }

  function BodyText(auth: Option<Auth>, p: Place): string {
    (if auth.Some? then auth.value.user + ":" + auth.value.password + "@" else "") + PlaceText(p)
  }

  function GroupsText(g: Groups): string {
    g.protocol + "://" + BodyText(g.auth, g.place)
  }

  // ---- The match the engine finds: authentication is taken whenever the rest still fits. ----

  /** The first position at which a host name cannot go on. */
  function HostEnd(t: string): (n: nat)
    ensures n <= |t|
    ensures ':' !in t[..n] && '/' !in t[..n]
    ensures n < |t| ==> t[n] == ':' || t[n] == '/'
  {
    if t == "" || t[0] == ':' || t[0] == '/' then 0 else 1 + HostEnd(t[1..])
  }

  function DigitsEnd(t: string): (n: nat)
    ensures n <= |t|
    ensures AllDigits(t[..n], 10)
    ensures n < |t| ==> !IsDigit(t[n], 10)
  {
    if t == "" || !IsDigit(t[0], 10) then 0 else 1 + DigitsEnd(t[1..])
  }

  function MatchVhost(host: string, port: Option<string>, t: string): Option<Place> {
    if t == "" then Some(Place(host, port, None))
    else if t[0] == '/' then Some(Place(host, port, Some(t[1..])))
    else None
  }

  function MatchPlace(t: string): Option<Place> {
    var h := HostEnd(t);
    var host, rest := t[..h], t[h..];
    if h == 0 then None
    else if rest == "" || rest[0] == '/' then MatchVhost(host, None, rest)
    else
      var d := DigitsEnd(rest[1..]);
      if d == 0 then None else MatchVhost(host, Some(rest[1..][..d]), rest[1..][d..])
  }

  function MatchWithAuth(t: string): Option<(Auth, Place)> {
    match Find(t, ":", 0)
    case None => None
    case Some(i) =>
      var afterUser := t[i + 1..];
      match Find(afterUser, "@", 0)
      case None => None
      case Some(j) =>
        match MatchPlace(afterUser[j + 1..])
        case None => None
        case Some(p) => Some((Auth(t[..i], afterUser[..j]), p))
  }

  function MatchBody(protocol: string, t: string): Option<Groups> {
    match MatchWithAuth(t)
    case Some((a, p)) => Some(Groups(protocol, Some(a), p))
    case None =>
      match MatchPlace(t)
      case Some(p) => Some(Groups(protocol, None, p))
      case None => None
  }

  function Match(uri: string): Option<Groups> {
    if |uri| >= 7 && ProperProtocol(uri[..4]) && uri[4..7] == "://" then MatchBody(uri[..4], uri[7..])
    else if |uri| >= 8 && ProperProtocol(uri[..5]) && uri[5..8] == "://" then MatchBody(uri[..5], uri[8..])
    else None
  }

  lemma {:induction false} HostEndIs(host: string, rest: string)
    requires ':' !in host && '/' !in host
    requires rest == "" || rest[0] == ':' || rest[0] == '/'
    ensures HostEnd(host + rest) == |host|
    decreases |host|
  {
    if host == "" {
      assert host + rest == rest;
    } else {
      assert host[0] in host && (host + rest)[1..] == host[1..] + rest;
      HostEndIs(host[1..], rest);
    }
  }

  lemma {:induction false} DigitsEndIs(digits: string, rest: string)
    requires AllDigits(digits, 10)
    requires rest == "" || !IsDigit(rest[0], 10)
    ensures DigitsEnd(digits + rest) == |digits|
    decreases |digits|
  {
    if digits == "" {
      assert digits + rest == rest;
    } else {
      assert IsDigit(digits[0], 10) && (digits + rest)[1..] == digits[1..] + rest;
      DigitsEndIs(digits[1..], rest);
    }
  }

  lemma Halves(a: string, b: string)
    ensures (a + b)[..|a|] == a && (a + b)[|a|..] == b
  {
  }

  lemma MatchOfVhost(host: string, port: Option<string>, vhost: Option<string>)
    ensures MatchVhost(host, port, VhostText(vhost)) == Some(Place(host, port, vhost))
  {
    if vhost.Some? {
      Halves("/", vhost.value);
    }
  }

  /** A host is followed by nothing, by a vhost, or by a port and what follows that. */
  lemma MatchOfTail(host: string, rest: string)
    requires host != "" && ':' !in host && '/' !in host
    requires rest == "" || rest[0] == ':' || rest[0] == '/'
    ensures MatchPlace(host + rest) ==
            if rest == "" || rest[0] == '/' then MatchVhost(host, None, rest)
            else
              var d := DigitsEnd(rest[1..]);
              if d == 0 then None else MatchVhost(host, Some(rest[1..][..d]), rest[1..][d..])
  {
    hide DigitsEnd;
    hide MatchVhost;
    hide HostEnd;
    HostEndIs(host, rest);
    Halves(host, rest);
  }

  /** Host, port and vhost can be read off their text in one way only. */
  lemma MatchOfPlace(p: Place)
    requires ProperPlace(p)
    ensures MatchPlace(PlaceText(p)) == Some(p)
  {
    var rest, after := TailText(p), VhostText(p.vhost);
    assert p.port.None? ==> rest == after by {
      assert "" + after == after;
    }
    hide MatchPlace;
    hide MatchVhost;
    hide DigitsEnd;
    MatchOfVhost(p.host, p.port, p.vhost);
    MatchOfTail(p.host, rest);
    if p.port.Some? {
      DigitsEndIs(p.port.value, after);
      PortFirst(p.port.value, after);
      Halves(p.port.value, after);
    }
  }

  lemma PortFirst(port: string, after: string)
    ensures var rest := ":" + port + after; rest[0] == ':' && rest[1..] == port + after
  {
  }

  lemma PlaceOfVhost(host: string, port: Option<string>, t: string)
    requires MatchVhost(host, port, t).Some?
    ensures var p := MatchVhost(host, port, t).value; p.host == host && p.port == port && VhostText(p.vhost) == t
  {
    if t != "" {
      FirstAndRest(t);
    }
  }

  lemma FirstAndRest(t: string)
    requires t != ""
    ensures [t[0]] + t[1..] == t
  {
  }

  lemma PlaceOfMatch(t: string)
    requires MatchPlace(t).Some?
    ensures var p := MatchPlace(t).value; ProperPlace(p) && PlaceText(p) == t
  {
    hide HostEnd;
    hide DigitsEnd;
    hide MatchVhost;
    hide PlaceText;
    var h := HostEnd(t);
    var rest := t[h..];
    CutInTwo(t, h);
    if rest == "" || rest[0] == '/' {
      PlaceOfVhost(t[..h], None, rest);
      SpelledWithout(t[..h], MatchPlace(t).value);
    } else {
      var digits, d := rest[1..], DigitsEnd(rest[1..]);
      PlaceOfVhost(t[..h], Some(digits[..d]), digits[d..]);
      CutInTwo(digits, d);
      FirstAndRest(rest);
      SpelledWithPort(t[..h], digits[..d], digits[d..], MatchPlace(t).value);
    }
  }

  lemma SpelledWithout(host: string, p: Place)
    requires p.host == host && p.port == None
    ensures PlaceText(p) == host + VhostText(p.vhost)
  {
    hide VhostText;
    assert "" + VhostText(p.vhost) == VhostText(p.vhost);
  }

  lemma SpelledWithPort(host: string, port: string, after: string, p: Place)
    requires p.host == host && p.port == Some(port) && VhostText(p.vhost) == after
    ensures PlaceText(p) == host + ([':'] + (port + after))
  {
    hide VhostText;
    assert ":" + port + after == [':'] + (port + after);
  }

  lemma CutInTwo(t: string, n: nat)
    requires n <= |t|
    ensures t[..n] + t[n..] == t
  {
  }

  lemma MatchWithAuthIs(a: Auth, p: Place)
    requires ProperAuth(a) && ProperPlace(p)
    ensures MatchWithAuth(BodyText(Some(a), p)) == Some((a, p))
  {
    hide Find;
    hide MatchPlace;
    var t := BodyText(Some(a), p);
    var afterUser := a.password + "@" + PlaceText(p);
    assert t == a.user + ":" + afterUser;
    FindChar(a.user, ':', afterUser);
    assert t[|a.user| + 1..] == afterUser && t[..|a.user|] == a.user;
    FindChar(a.password, '@', PlaceText(p));
    assert afterUser[|a.password| + 1..] == PlaceText(p) && afterUser[..|a.password|] == a.password;
    MatchOfPlace(p);
  }

  lemma AuthOfMatch(t: string)
    requires MatchWithAuth(t).Some?
    ensures var (a, p) := MatchWithAuth(t).value; ProperAuth(a) && ProperPlace(p) && BodyText(Some(a), p) == t
  {
    hide Find;
    hide MatchPlace;
    hide PlaceText;
    FoundChar(t, ':');
    var i := Find(t, ":", 0).value;
    var afterUser := t[i + 1..];
    FoundChar(afterUser, '@');
    var j := Find(afterUser, "@", 0).value;
    PlaceOfMatch(afterUser[j + 1..]);
    CutAround(t, i);
    CutAround(afterUser, j);
    FourParts(t[..i], afterUser[..j], afterUser[j + 1..]);
  }

  lemma CutAround(t: string, i: nat)
    requires i < |t|
    ensures t[..i] + ([t[i]] + t[i + 1..]) == t
  {
  }

  lemma FourParts(user: string, password: string, place: string)
    ensures user + ":" + password + "@" + place == user + ([':'] + (password + (['@'] + place)))
  {
  }

  /** The match is one the expression allows. */
  lemma MatchSound(uri: string)
    requires Match(uri).Some?
    ensures var g := Match(uri).value; Proper(g) && GroupsText(g) == uri
  {
    hide MatchWithAuth;
    hide MatchPlace;
    var n := if |uri| >= 7 && ProperProtocol(uri[..4]) && uri[4..7] == "://" then 4 else 5;
    var t := uri[n + 3..];
    assert uri == uri[..n] + "://" + t;
    if MatchWithAuth(t).Some? {
      AuthOfMatch(t);
    } else {
      PlaceOfMatch(t);
      assert "" + t == t;
    }
  }

  /**
   * The expression matches whenever some captures fit, and it returns those captures, except
   * that a reading with authentication wins over one without.
   */
  lemma MatchComplete(g: Groups)
    requires Proper(g)
    ensures Match(GroupsText(g)) == Some(
              match MatchWithAuth(PlaceText(g.place))
              case Some((a, p)) => if g.auth.None? then Groups(g.protocol, Some(a), p) else g
              case None => g)
  {
    hide MatchWithAuth;
    hide MatchPlace;
    var uri, n, t := GroupsText(g), |g.protocol|, BodyText(g.auth, g.place);
    assert n == |LowerAll(g.protocol)|;
    assert uri[..n] == g.protocol && uri[n..n + 3] == "://" && uri[n + 3..] == t;
    if n == 5 {
      assert uri[4] == g.protocol[4] && LowerAll(g.protocol)[4] == 's';
      assert uri[4..7][0] == uri[4];
    }
    if g.auth.Some? {
      MatchWithAuthIs(g.auth.value, g.place);
    } else {
      assert t == PlaceText(g.place);
      MatchOfPlace(g.place);
    }
  }

  // ---- Parsing and printing. ----

  function PortForProtocol(p: string): Result<nat> {
    if p == "amqp" then Ok(5672)
    else if p == "amqps" then Ok(5671)
    else Thrown(RuntimeError("Unknown AMQP scheme " + p))
  }

  /** The port text as std::stoi reads it, narrowed to 16 bits. */
  function PortOf(g: Groups): Result<nat> {
    match g.place.port
    case None => PortForProtocol(g.protocol)
    case Some(text) =>
      match Stoi(text, 10)
      case Ok(n) => Ok(n % 65536)
      case Thrown(error) => Thrown(error)
  }

  function Parse(uri: string): Result<Details> {
    match Match(uri)
    case None => Thrown(RuntimeError("Failed to parse " + uri))
    case Some(g) =>
      match PortOf(g)
      case Thrown(error) => Thrown(error)
      case Ok(port) =>
        var (user, password) := if g.auth.Some? then (g.auth.value.user, g.auth.value.password) else ("", "");
        var vhost := if g.place.vhost.Some? then g.place.vhost.value else "";
        Ok(Details(g.place.host, user, password, vhost, port, g.protocol))
  }

  /**
   * What is made of the captures: 5672 or 5671 without a port, as the scheme says in lower case;
   * with a port its number in 16 bits, and an exception if it does not fit an int.
   */
  lemma ParseOfMatch(uri: string)
    ensures match Match(uri)
            case None => Parse(uri) == Thrown(RuntimeError("Failed to parse " + uri))
            case Some(Groups(protocol, auth, Place(host, port, vhost))) =>
              var user := if auth.Some? then auth.value.user else "";
              var password := if auth.Some? then auth.value.password else "";
              var path := if vhost.Some? then vhost.value else "";
              Parse(uri) ==
              match port
              case Some(text) =>
                if Scan(text, 10, 0) < 0x8000_0000
                then Ok(Details(host, user, password, path, Scan(text, 10, 0) % 0x1_0000, protocol))
                else Thrown(NumberOutOfRange)
              case None =>
                if protocol == "amqp" then Ok(Details(host, user, password, path, 5672, "amqp"))
                else if protocol == "amqps" then Ok(Details(host, user, password, path, 5671, "amqps"))
                else Thrown(RuntimeError("Unknown AMQP scheme " + protocol))
  {
    hide Stoi;
    hide Scan;
    if Match(uri).Some? {
      var g := Match(uri).value;
      MatchSound(uri);
      hide Match;
      if g.place.port.Some? {
        StoiOfDigits(g.place.port.value, 10);
      }
    }
    hide Match;
  }

  /** The captures that the printed form of `d` spells. */
  function Printed(d: Details): Groups {
    Groups(d.protocol,
           if d.user != "" then Some(Auth(d.user, d.password)) else None,
           Place(d.host,
                 if Ok(d.port) != PortForProtocol(d.protocol) then Some(Decimal(d.port)) else None,
                 Some(d.vhost)))
  }

  function Print(d: Details): Result<string> {
    match PortForProtocol(d.protocol)
    case Thrown(error) => Thrown(error)
    case Ok(_) => Ok(GroupsText(Printed(d)))
  }

  method ToString(d: Details) returns (r: Result<string>)
    ensures r == Print(d)
  {
    var s := d.protocol + "://";
    var auth, port := "", "";
    if d.user != "" {
      auth := d.user + ":" + d.password + "@";
      s := s + auth;
    }
    s := s + d.host;
    var default := PortForProtocol(d.protocol);
    if default.Thrown? {
      return Thrown(default.error);
    }
    if d.port != default.value {
      port := ":" + Decimal(d.port);
      s := s + port;
    }
    s := s + ("/" + d.vhost);
    assert TailText(Printed(d).place) == port + ("/" + d.vhost);
    assert s == d.protocol + "://" + (auth + (d.host + (port + ("/" + d.vhost))));
    r := Ok(s);
  }

  /** The text of a place cannot be read as one with authentication before it. */
  ghost predicate NoAuthIn(t: string) {
    forall a, p | ProperAuth(a) && ProperPlace(p) :: BodyText(Some(a), p) != t
  }

  lemma NoAuthIffNoMatch(t: string)
    ensures MatchWithAuth(t).None? <==> NoAuthIn(t)
  {
    hide MatchWithAuth;
    if MatchWithAuth(t).Some? {
      AuthOfMatch(t);
      var (a, p) := MatchWithAuth(t).value;
      assert ProperAuth(a) && ProperPlace(p) && BodyText(Some(a), p) == t;
    }
    forall a, p | ProperAuth(a) && ProperPlace(p) && BodyText(Some(a), p) == t ensures MatchWithAuth(t).Some? {
      MatchWithAuthIs(a, p);
    }
  }

  /** Details whose printed form can be read as what was meant. */
  ghost predicate RoundTrips(d: Details) {
    && (d.protocol == "amqp" || d.protocol == "amqps")
    && ':' !in d.user && '@' !in d.password
    && d.host != "" && ':' !in d.host && '/' !in d.host
    && (d.user == "" ==> d.password == "" && NoAuthIn(PlaceText(Printed(d).place)))
  }

  lemma PrintedProper(d: Details)
    requires d.protocol == "amqp" || d.protocol == "amqps"
    requires ':' !in d.user && (d.user != "" ==> '@' !in d.password)
    requires d.host != "" && ':' !in d.host && '/' !in d.host
    ensures Proper(Printed(d))
  {
    ScanOfDecimal(d.port);
    assert LowerAll("amqp") == "amqp" && LowerAll("amqps") == "amqps";
  }

  /** Parsing undoes printing for exactly these details. */
  lemma ParseOfPrint(d: Details)
    requires d.port < 65536
    ensures Print(d).Ok? && Parse(Print(d).value) == Ok(d) <==> RoundTrips(d)
  {
    hide Match;
    hide MatchWithAuth;
    hide NoAuthIn;
    NoAuthIffNoMatch(PlaceText(Printed(d).place));
    if RoundTrips(d) {
      PrintedProper(d);
      MatchComplete(Printed(d));
      StoiOfDecimal(d.port);
    }
    if Print(d).Ok? && Parse(Print(d).value) == Ok(d) {
      var uri := Print(d).value;
      var g := Match(uri).value;
      MatchSound(uri);
      PrintedProper(d);
      MatchComplete(Printed(d));
      UserNotEmpty(g, Printed(d));
    }
  }

  lemma SameBody(g: Groups, h: Groups)
    requires g.protocol == h.protocol && GroupsText(g) == GroupsText(h)
    ensures BodyText(g.auth, g.place) == BodyText(h.auth, h.place)
  {
    var n := |g.protocol| + 3;
    assert GroupsText(g)[n..] == BodyText(g.auth, g.place);
    assert GroupsText(h)[n..] == BodyText(h.auth, h.place);
  }

  /** A text that starts with a host name does not start with an empty user name. */
  lemma UserNotEmpty(g: Groups, h: Groups)
    requires g.protocol == h.protocol && GroupsText(g) == GroupsText(h)
    requires ProperPlace(h.place)
    ensures h.auth.None? && g.auth.Some? ==> g.auth.value.user != ""
  {
    SameBody(g, h);
    assert h.place.host[0] in h.place.host;
    assert h.auth.None? ==> BodyText(h.auth, h.place)[0] == h.place.host[0];
    assert g.auth.Some? && g.auth.value.user == "" ==> BodyText(g.auth, g.place)[0] == ':';
  }

  /** One text that the expression reads in two ways. */
  const TWO_READINGS := "h/a:b@c"
  const WITH_AUTH := Groups("amqp", Some(Auth("h/a", "b")), Place("c", None, None))
  const WITHOUT_AUTH := Groups("amqp", None, Place("h", None, Some("a:b@c")))

  /** A vhost can be mistaken: the host becomes a user, and what follows the '@' the host. */
  lemma VhostTakenForPassword()
    ensures var d := Details("h", "", "", "a:b@c", 5672, "amqp");
            && Print(d) == Ok("amqp" + "://" + TWO_READINGS) && !RoundTrips(d)
            && Parse("amqp" + "://" + TWO_READINGS) == Ok(Details("c", "h/a", "b", "", 5672, "amqp"))
  {
    hide Match;
    hide BodyText;
    hide PlaceText;
    hide TWO_READINGS;
    var d := Details("h", "", "", "a:b@c", 5672, "amqp");
    PrintedWithout();
    Readings();
    ReadWithAuth();
    assert NoAuthIn(TWO_READINGS) ==> BodyText(WITH_AUTH.auth, WITH_AUTH.place) != TWO_READINGS;
  }

  lemma PrintedWithout()
    ensures Printed(Details("h", "", "", "a:b@c", 5672, "amqp")) == WITHOUT_AUTH
    ensures ProperAuth(WITH_AUTH.auth.value) && ProperPlace(WITH_AUTH.place)
  {
  }

  lemma Readings()
    ensures BodyText(WITH_AUTH.auth, WITH_AUTH.place) == TWO_READINGS
    ensures BodyText(WITHOUT_AUTH.auth, WITHOUT_AUTH.place) == PlaceText(WITHOUT_AUTH.place) == TWO_READINGS
  {
  }

  lemma ReadWithAuth()
    ensures Match("amqp" + "://" + TWO_READINGS) == Some(WITH_AUTH)
  {
    hide Match;
    hide BodyText;
    hide PlaceText;
    hide TWO_READINGS;
    Readings();
    PrintedWithout();
    assert LowerAll("amqp") == "amqp";
    MatchComplete(WITH_AUTH);
  }

  /** Without an '@' in host and vhost nothing can be mistaken for authentication. */
  lemma NoAtSignRoundTrips(d: Details)
    requires d.protocol == "amqp" || d.protocol == "amqps"
    requires ':' !in d.user && '@' !in d.password
    requires d.host != "" && ':' !in d.host && '/' !in d.host
    requires d.user == "" ==> d.password == "" && '@' !in d.vhost
    ensures RoundTrips(d)
  {
    if d.user == "" {
      var t := PlaceText(Printed(d).place);
      forall a, p | ProperAuth(a) && ProperPlace(p) && BodyText(Some(a), p) == t ensures false {
        AtSignBehindHost(d, a, p);
      }
    }
  }

  lemma AtSignBehindHost(d: Details, a: Auth, p: Place)
    requires d.host != "" && ':' !in d.host && '/' !in d.host && ':' !in a.user
    requires PlaceText(Printed(d).place) == BodyText(Some(a), p)
    ensures '@' in d.vhost
  {
    hide Decimal;
    hide PortForProtocol;
    var t, at := PlaceText(Printed(d).place), |a.user| + 1 + |a.password|;
    var port := if Ok(d.port) != PortForProtocol(d.protocol) then ":" + Decimal(d.port) else "";
    ScanOfDecimal(d.port);
    assert t == d.host + port + "/" + d.vhost;
    assert BodyText(Some(a), p) == a.user + ":" + a.password + "@" + PlaceText(p);
    assert t[|a.user|] == ':' && t[at] == '@';
    forall i | 0 <= i < |d.host| ensures t[i] != ':' {
      assert t[i] == d.host[i] && d.host[i] in d.host;
    }
    forall i | 0 <= i < |port| ensures port[i] != '@' {
      assert i > 0 ==> IsDigit(Decimal(d.port)[i - 1], 10);
    }
    forall i | |d.host| <= i < |d.host| + |port| ensures t[i] != '@' {
      assert t[i] == port[i - |d.host|];
    }
    assert t[at] == d.vhost[at - |d.host| - |port| - 1];
  }

  /** Connection strings that are written the way `to_string` writes them. */
  predicate CanonicalGroups(g: Groups) {
    && (g.protocol == "amqp" || g.protocol == "amqps")
    && (g.auth.Some? ==> g.auth.value.user != "")
    && g.place.vhost.Some?
    && (g.place.port.Some? ==>
          && Canonical(g.place.port.value)
          && Scan(g.place.port.value, 10, 0) < 65536
          && Ok(Scan(g.place.port.value, 10, 0)) != PortForProtocol(g.protocol))
  }

  /** Printing undoes parsing for exactly the canonical connection strings. */
  lemma PrintOfParse(uri: string)
    requires Parse(uri).Ok?
    ensures Print(Parse(uri).value) == Ok(uri) <==> CanonicalGroups(Match(uri).value)
  {
    hide Match;
    hide MatchWithAuth;
    var g, d := Match(uri).value, Parse(uri).value;
    MatchSound(uri);
    if Print(d).Ok? {
      var h := Printed(d);
      PrintedIffCanonical(g, d);
      if Print(d) == Ok(uri) {
        PrintedProper(d);
        MatchComplete(h);
        UserNotEmpty(g, h);
        if h.auth.None? {
          SameBody(g, h);
          MatchOfPlace(g.place);
          MatchOfPlace(h.place);
          assert "" + PlaceText(g.place) == PlaceText(g.place) && "" + PlaceText(h.place) == PlaceText(h.place);
        }
      }
    }
  }

  lemma PrintedIffCanonical(g: Groups, d: Details)
    requires Proper(g) && Match(GroupsText(g)) == Some(g) && Parse(GroupsText(g)) == Ok(d)
    requires Print(d).Ok?
    ensures Printed(d) == g <==> CanonicalGroups(g)
  {
    hide Match;
    hide GroupsText;
    hide Stoi;
    hide Scan;
    hide Decimal;
    hide Canonical;
    hide LowerAll;
    if g.place.port.Some? {
      var text := g.place.port.value;
      StoiOfDigits(text, 10);
      DecimalOfScan(text);
      ScanOfDecimal(d.port);
    }
  }
}
