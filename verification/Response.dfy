/** HTTP responses and their completion: include/net/asio/http/response.h. */
module Response {
  import opened Prelude
  import opened Text
  import opened Numbers
  import opened Header
  import opened Message
  import Requests = Request

  datatype Content = Content(version: string, status: nat, reason: string, headers: seq<Header>, body: string)

  const BLANK := Content("", 0, "", [], "")

  datatype Outcome = Done(status: nat) | Failed(why: string) | Cancelled

  /** The status line, cut at its first two spaces; what was set before a throw stays set. */
  function ParseStatusLine(m: Content, line: string): (Result<()>, Content) {
    match Find(line, " ", 0)
    case None => (Thrown(RuntimeError("No response version found")), m)
    case Some(i) =>
      var m1 := m.(version := line[..i]);
      match Find(line, " ", i + 1)
      case None => (Thrown(RuntimeError("No status code found")), m1)
      case Some(j) =>
        match Stoi(line[i + 1..j], 10)
        case Thrown(error) => (Thrown(error), m1)
        case Ok(n) => (Ok(()), m1.(status := n % 65536, reason := line[j + 1..]))
  }

  function AddHeader(m: Content, h: Header): Content {
    m.(headers := m.headers + [h])
  }

  /** Setting the body also states its length in the headers. */
  function WithBody(m: Content, data: string): Content {
    m.(body := data, headers := SetHeader(m.headers, "Content-Length", Decimal(|data|)))
  }

  /** `reset` starts a new attempt; status code and message keep their old values. */
  function Cleared(m: Content): Content {
    m.(headers := [], version := "", body := "")
  }

  /** A status line is read back as version, number and message; without a number only the version stays. */
  lemma ParseOfStatusLine(m: Content, version: string, status: string, reason: string)
    requires ' ' !in version && ' ' !in status
    ensures ParseStatusLine(m, version + " " + status + " " + reason) ==
            match Stoi(status, 10)
            case Ok(n) => (Ok(()), m.(version := version, status := n % 65536, reason := reason))
            case Thrown(error) => (Thrown(error), m.(version := version))
  {
    hide Find;
    hide Stoi;
    var line := version + " " + status + " " + reason;
    var rest := status + [' '] + reason;
    var next := |version| + 1;
    assert line == version + [' '] + rest;
    FindChar(version, ' ', rest);
    FindChar(status, ' ', reason);
    assert line[next..] == rest;
    FindFrom(line, [' '], next, next);
    assert Find(line, " ", 0) == Some(|version|) && Find(line, " ", next) == Some(next + |status|);
    assert line[..|version|] == version && line[next..next + |status|] == status;
    assert line[next + |status| + 1..] == reason;
  }

  /** With a single space only the version is set, and without one nothing. */
  lemma StatusLineFails(m: Content, version: string, rest: string)
    requires ' ' !in version && ' ' !in rest
    ensures ParseStatusLine(m, version) == (Thrown(RuntimeError("No response version found")), m)
    ensures ParseStatusLine(m, version + " " + rest) ==
            (Thrown(RuntimeError("No status code found")), m.(version := version))
  {
    hide Find;
    hide Stoi;
    var line, next := version + " " + rest, |version| + 1;
    FoundChar(version, ' ');
    FindChar(version, ' ', rest);
    FoundChar(rest, ' ');
    assert line == version + [' '] + rest && line[next..] == rest && line[..|version|] == version;
    FindFrom(line, [' '], next, next);
  }

  class Response {
    /** Names the attempt series this object belongs to. */
    const id: nat
    /** The request that this is the response to. */
    const request: Requests.Request
    var version: string
    var status: nat
    var reason: string
    var headers: seq<Header>
    var body: string
    /** completion_, seen by the caller, and current_completion_, one for each attempt. */
    var completion: Option<Outcome>
    var current: Option<Outcome>

    function State(): Content
      reads this
    {
      Content(version, status, reason, headers, body)
    }

    constructor (id: nat, request: Requests.Request)
      ensures this.id == id && this.request == request && State() == BLANK && completion == None && current == None
    {
      this.id := id;
      this.request := request;
      version, status, reason, headers, body := "", 0, "", [], "";
      completion, current := None, None;
    }

    method ParseInitialLine(line: string) returns (r: Result<()>)
      modifies this
      ensures (r, State()) == ParseStatusLine(old(State()), line)
      ensures completion == old(completion) && current == old(current)
    {
      var first := 0;
      var next := Find(line, " ", 0);
      if next.None? {
        return Thrown(RuntimeError("No response version found"));
      }
      version := line[first..next.value];
      first := next.value + 1;
      next := Find(line, " ", first);
      if next.None? {
        return Thrown(RuntimeError("No status code found"));
      }
      var code := Stoi(line[first..next.value], 10);
      if code.Thrown? {
        return Thrown(code.error);
      }
      status := code.value % 65536;
      reason := line[next.value + 1..];
      r := Ok(());
    }

    method ParseHeader(line: string) returns (r: Result<()>)
      modifies this
      ensures completion == old(completion) && current == old(current)
      ensures match ParseHeaderLine(line)
              case Ok(h) => r == Ok(()) && State() == AddHeader(old(State()), h)
              case Thrown(error) => r == Thrown(error) && State() == old(State())
    {
      var h := ParseHeaderLine(line);
      if h.Thrown? {
        return Thrown(h.error);
      }
      headers := headers + [h.value];
      r := Ok(());
    }

    method SetBody(data: string)
      modifies this
      ensures State() == WithBody(old(State()), data)
      ensures body == data && HeaderValue(headers, "Content-Length") == Some(Decimal(|data|))
      ensures version == old(version) && status == old(status) && reason == old(reason)
      ensures completion == old(completion) && current == old(current)
    {
      SetHeaderLaws(headers, "Content-Length", Decimal(|data|), "");
      body := data;
      headers := WithHeader(headers, "Content-Length", Decimal(|body|));
    }

    method AppendBody(data: string)
      modifies this
      ensures State() == old(State()).(body := old(body) + data)
      ensures completion == old(completion) && current == old(current)
    {
      body := body + data;
    }

    /** Settles the current attempt, unless it is settled already. */
    method SettleCurrent(outcome: Outcome) returns (settled: bool)
      modifies this
      ensures settled == old(current).None?
      ensures current == (if settled then Some(outcome) else old(current))
      ensures State() == old(State()) && completion == old(completion)
    {
      settled := current.None?;
      if settled {
        current := Some(outcome);
      }
    }

    /** Settles the completion that the caller sees. */
    method Complete(outcome: Outcome)
      requires completion == None
      modifies this`completion
      ensures completion == Some(outcome)
    {
      completion := Some(outcome);
    }

    method Reset()
      modifies this
      ensures State() == Cleared(old(State())) && current == None && completion == old(completion)
      ensures headers == [] && version == "" && body == "" && status == old(status) && reason == old(reason)
    {
      current := None;
      headers := [];
      version := "";
      body := "";
    }
  }
}
