/** The retry loop of include/net/asio/http/client.h. */
module Client {
  import opened Prelude
  import opened Response

  /** What one on_completion handler does with a settled attempt. */
  datatype Verdict = Accept | Veto | Throw(what: string)

  /** `chained`: handlers run in order until one vetoes or throws. */
  function Decide(verdicts: seq<Verdict>): Verdict {
    if verdicts == [] then Accept
    else if verdicts[0] != Accept then verdicts[0]
    else Decide(verdicts[1..])
  }

  /** The decision is the first answer other than acceptance, and acceptance if there is none. */
  lemma {:induction false} DecideIsFirst(verdicts: seq<Verdict>) returns (i: nat)
    ensures i <= |verdicts| && forall j | 0 <= j < i :: verdicts[j] == Accept
    ensures Decide(verdicts) == if i < |verdicts| then verdicts[i] else Accept
    ensures i < |verdicts| ==> verdicts[i] != Accept
    decreases |verdicts|
  {
    i := 0;
    if verdicts != [] && verdicts[0] == Accept {
      var n := DecideIsFirst(verdicts[1..]);
      i := n + 1;
    }
  }

  /** How one attempt ends: what the reader left in the response, its outcome, the handlers. */
  datatype Round = Round(content: Content, outcome: Outcome, verdicts: seq<Verdict>)

  /** A request with its attempts; `tried` are the attempt numbers the handlers were given. */
  datatype Exchange = Exchange(
    content: Content,
    current: Option<Outcome>,
    completion: Option<Outcome>,
    retry: nat,
    tried: seq<nat>,
    requests: nat)

  /** A request whose first connection has been asked for. */
  function Begin(content: Content): Exchange {
    Exchange(content, None, None, 0, [], 1)
  }

  /** The current attempt settles; a settled one does not settle again. */
  function Settle(x: Exchange, r: Round): Exchange {
    if x.current.Some? then x
    else
      var x1 := x.(content := r.content, current := Some(r.outcome), tried := x.tried + [x.retry]);
      match Decide(r.verdicts)
      case Accept => x1.(completion := Some(r.outcome))
      case Throw(what) => x1.(completion := Some(Failed(what)))
      case Veto =>
        x1.(content := Cleared(x1.content), current := None, retry := x.retry + 1, requests := x.requests + 1)
  }

  function SettleAll(x: Exchange, rounds: seq<Round>): Exchange
    decreases |rounds|
  {
    if rounds == [] then x else SettleAll(Settle(x, rounds[0]), rounds[1..])
  }

  /** The first round that is not vetoed, or the number of rounds. */
  function FirstDecided(rounds: seq<Round>): (k: nat)
    ensures k <= |rounds|
    ensures forall i | 0 <= i < k :: Decide(rounds[i].verdicts) == Veto
    ensures k < |rounds| ==> Decide(rounds[k].verdicts) != Veto
  {
    if rounds == [] || Decide(rounds[0].verdicts) != Veto then 0 else 1 + FirstDecided(rounds[1..])
  }

  function Final(r: Round): Outcome {
    match Decide(r.verdicts) case Throw(what) => Failed(what) case _ => r.outcome
  }

  function Numbers(from: nat, n: nat): seq<nat> {
    seq(n, i requires 0 <= i < n => from + i)
  }

  /** What a response that was reset keeps of an attempt: its status and message, and nothing else. */
  predicate LeftBehind(content: Content, before: Content) {
    && content.headers == [] && content.body == "" && content.version == ""
    && content.status == before.status && content.reason == before.reason
  }

  /** A settled exchange stays as it is. */
  lemma {:induction false} SettledStays(x: Exchange, rounds: seq<Round>)
    requires x.current.Some?
    ensures SettleAll(x, rounds) == x
    decreases |rounds|
  {
    if rounds != [] {
      SettledStays(x, rounds[1..]);
    }
  }

  /**
   * On every run the outer completion is settled by the first attempt that no handler vetoes,
   * with its outcome or the failure that a handler threw, and never again; until then it is
   * open, the attempt in progress has neither headers, body nor version left over from the one
   * before, only its status and message, and one connection is asked for per attempt. Attempts
   * are numbered without gaps.
   */
  lemma {:induction false} FirstDecidedWins(x: Exchange, rounds: seq<Round>)
    requires x.current == None && x.completion == None
    ensures var k, end := FirstDecided(rounds), SettleAll(x, rounds);
            && (if k < |rounds|
                then end.completion == Some(Final(rounds[k])) && end.current == Some(rounds[k].outcome) &&
                     end.retry == x.retry + k &&
                     end.tried == x.tried + Numbers(x.retry, k + 1) && end.content == rounds[k].content
                else end.completion == None && end.current == None && end.retry == x.retry + k &&
                     end.tried == x.tried + Numbers(x.retry, k) &&
                     (if k == 0 then end.content == x.content
                      else LeftBehind(end.content, rounds[k - 1].content)))
            && end.requests == x.requests + (end.retry - x.retry)
    decreases |rounds|
  {
    hide Decide;
    if rounds == [] {
      assert x.tried + Numbers(x.retry, 0) == x.tried;
    } else {
      var next, k := Settle(x, rounds[0]), FirstDecided(rounds);
      if k == 0 {
        SettledStays(next, rounds[1..]);
        assert Numbers(x.retry, 1) == [x.retry];
      } else {
        FirstDecidedWins(next, rounds[1..]);
        NumbersAfter(x.tried, x.retry, k);
        NumbersAfter(x.tried, x.retry, k + 1);
        hide Numbers;
      }
    }
  }

  lemma NumbersAfter(tried: seq<nat>, from: nat, n: nat)
    requires n > 0
    ensures (tried + [from]) + Numbers(from + 1, n - 1) == tried + Numbers(from, n)
  {
  }

  method Chained(verdicts: seq<Verdict>) returns (v: Verdict)
    ensures v == Decide(verdicts)
  {
    assert verdicts[0..] == verdicts;
    for i := 0 to |verdicts|
      invariant Decide(verdicts) == Decide(verdicts[i..])
    {
      if verdicts[i] != Accept {
        return verdicts[i];
      }
    }
    return Accept;
  }

  /** A response together with the retry count that its completion handler captured. */
  class Call {
    const res: Response
    var retry: nat
    /** How often a connection was asked for. */
    var requests: nat
    ghost var tried: seq<nat>

    ghost function State(): Exchange
      reads this, res
    {
      Exchange(res.State(), res.current, res.completion, retry, tried, requests)
    }

    constructor (res: Response)
      requires res.current == None && res.completion == None
      ensures this.res == res && State() == Begin(res.State())
    {
      this.res := res;
      retry, requests, tried := 0, 1, [];
    }

    /** The completion handler, run when the current attempt has been settled. */
    method OnCurrentReady(handlers: seq<Verdict>)
      requires res.current.Some? && res.completion == None
      modifies this, res
      ensures var before := old(State()).(current := None);
              State() == Settle(before, Round(old(res.State()), old(res.current).value, handlers))
    {
      tried := tried + [retry];
      var v := Chained(handlers);
      match v {
        case Throw(what) =>
          res.Complete(Failed(what));
        case Veto =>
          res.Reset();
          retry := retry + 1;
          requests := requests + 1;
        case Accept =>
          res.Complete(res.current.value);
      }
    }
  }
}
