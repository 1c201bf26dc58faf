/** The reader together with its buffer, its socket and the requests the pool will hand it. */
module HttpRuns {
  import opened Prelude
  import opened Text
  import opened ReadBuffer
  import opened Response
  import opened Message
  import opened HttpReader

  /** A request to be written: its attempt and what its response object holds by then. */
  datatype Request = Request(id: nat, content: Content)

  /** Bytes read ahead (`in_`), bytes not yet received, and the requests still to be written. */
  datatype Conn = Conn(reader: Reader, buffered: string, wire: string, supply: seq<Request>)

  datatype Step = WriteNext | Arrive(k: nat) | Callback

  /** The reader waits for a status line, and no request has been written for it yet. */
  predicate Awaiting(r: Reader) {
    r.want == StatusLine && r.res.None?
  }

  /**
   * The request is the current one from here on. When its bytes have been sent is left open:
   * what is read does not depend on that, see HttpReader.ReadingIgnoresWrites.
   */
  function Written(r: Reader, request: Request): Reader {
    Attach(r, request.id, request.content)
  }

  /** The outstanding read, done on a text that is known to be there. */
  function Consume(r: Reader, s: string): (next: Option<(Reader, string)>)
    requires Consistent(r)
    ensures next.Some? ==> Consistent(next.value.0)
    ensures next.Some? ==> |next.value.1| < |s| || (|next.value.1| == |s| && Rank(next.value.0) < Rank(r))
  {
    match ReadOf(r.want)
    case None => None
    case Some(read) =>
      match Take(read, s)
      case None => None
      case Some((text, rest)) =>
        HandleConsistent(r, text);
        TakeShorter(r, s);
        Some((Handle(r, text), rest))
  }

  /** Reads of a number of bytes, which may be zero, are followed by the read of a line. */
  function Rank(r: Reader): nat {
    if r.want.ChunkBytes? || r.want.BodyBytes? then 1 else 0
  }

  lemma TakeShorter(r: Reader, s: string)
    requires Consistent(r) && ReadOf(r.want).Some? && Take(ReadOf(r.want).value, s).Some?
    ensures var (text, rest) := Take(ReadOf(r.want).value, s).value;
            |rest| < |s| || (|rest| == |s| && Rank(Handle(r, text)) < Rank(r))
  {
    hide WithBody;
    hide HeaderValue;
    hide Find;
    TakeConserves(ReadOf(r.want).value, s);
  }

  predicate Enabled(c: Conn, step: Step)
    requires Consistent(c.reader)
  {
    match step
    case WriteNext => Awaiting(c.reader) && c.supply != []
    case Arrive(k) => k <= |c.wire|
    case Callback => Consume(c.reader, c.buffered).Some?
  }

  function Do(c: Conn, step: Step): (next: Conn)
    requires Consistent(c.reader) && Enabled(c, step)
    ensures Consistent(next.reader)
  {
    match step
    case WriteNext => c.(reader := Written(c.reader, c.supply[0]), supply := c.supply[1..])
    case Arrive(k) => c.(buffered := c.buffered + c.wire[..k], wire := c.wire[k..])
    case Callback =>
      var (reader, rest) := Consume(c.reader, c.buffered).value;
      c.(reader := reader, buffered := rest)
  }

  predicate Possible(c: Conn, steps: seq<Step>)
    requires Consistent(c.reader)
    decreases |steps|
  {
    steps == [] || (Enabled(c, steps[0]) && Possible(Do(c, steps[0]), steps[1..]))
  }

  function Run(c: Conn, steps: seq<Step>): (end: Conn)
    requires Consistent(c.reader) && Possible(c, steps)
    ensures Consistent(end.reader)
    decreases |steps|
  {
    if steps == [] then c else Run(Do(c, steps[0]), steps[1..])
  }

  /** All bytes arrived, and nothing can happen but that an unsolicited line is read. */
  predicate Quiescent(c: Conn)
    requires Consistent(c.reader)
  {
    c.wire == "" && !Enabled(c, WriteNext) && (Awaiting(c.reader) || !Enabled(c, Callback))
  }

  /** The step reads a status line before the request for it is written. */
  predicate Unsolicited(c: Conn, step: Step) {
    step.Callback? && Awaiting(c.reader)
  }

  /** No status line of the run is read before the request for it is written. */
  predicate Attended(c: Conn, steps: seq<Step>)
    requires Consistent(c.reader) && Possible(c, steps)
    decreases |steps|
  {
    steps == [] || (!Unsolicited(c, steps[0]) && Attended(Do(c, steps[0]), steps[1..]))
  }

  /** One-shot specification: the reader on a stream that is there from the start. */
  function Decode(r: Reader, s: string, supply: seq<Request>): (end: Conn)
    requires Consistent(r)
    ensures Consistent(end.reader) && end.wire == ""
    decreases |s|, Rank(r), |supply|
  {
    if Awaiting(r) then
      if supply == [] then Conn(r, s, "", []) else Decode(Written(r, supply[0]), s, supply[1..])
    else
      match Consume(r, s)
      case None => Conn(r, s, "", supply)
      case Some((next, rest)) => Decode(next, rest, supply)
  }

  function DecodeOf(c: Conn): Conn
    requires Consistent(c.reader)
  {
    Decode(c.reader, c.buffered + c.wire, c.supply)
  }

  lemma ConsumeStable(r: Reader, buffered: string, later: string)
    requires Consistent(r) && Consume(r, buffered).Some?
    ensures var (next, rest) := Consume(r, buffered).value;
            Consume(r, buffered + later) == Some((next, rest + later))
  {
    hide Take;
    TakeStable(ReadOf(r.want).value, buffered, later);
  }

  lemma StepKeepsDecode(c: Conn, step: Step)
    requires Consistent(c.reader) && Enabled(c, step) && !Unsolicited(c, step)
    ensures DecodeOf(Do(c, step)) == DecodeOf(c)
  {
    hide Consume;
    match step {
      case WriteNext =>
      case Arrive(k) =>
        assert c.buffered + c.wire[..k] + c.wire[k..] == c.buffered + c.wire;
      case Callback =>
        ConsumeStable(c.reader, c.buffered, c.wire);
    }
  }

  /** An unsolicited line closes the connection, and nothing is read or written any more. */
  lemma UnsolicitedCloses(c: Conn)
    requires Consistent(c.reader) && Awaiting(c.reader) && Enabled(c, Callback)
    ensures Do(c, Callback).reader == Close(ReadDone(c.reader)) && Do(c, Callback).supply == c.supply
  {
  }

  lemma {:induction false} ClosedRun(c: Conn, steps: seq<Step>)
    requires Consistent(c.reader) && c.reader.want == Nothing && Possible(c, steps)
    ensures Run(c, steps).reader == c.reader && Run(c, steps).supply == c.supply
    decreases |steps|
  {
    if steps != [] {
      ClosedRun(Do(c, steps[0]), steps[1..]);
    }
  }

  /** The one-shot decoder does not close a connection for being early. */
  lemma UnsolicitedDiffers(c: Conn, steps: seq<Step>)
    requires Consistent(c.reader) && Awaiting(c.reader) && Enabled(c, Callback)
    requires Possible(Do(c, Callback), steps)
    ensures DecodeOf(Run(Do(c, Callback), steps)) != DecodeOf(c)
  {
    hide Do;
    UnsolicitedCloses(c);
    ClosedRun(Do(c, Callback), steps);
    var s := c.buffered + c.wire;
    if c.supply != [] {
      DecodeExtends(Written(c.reader, c.supply[0]), s, c.supply[1..]);
    }
  }

  /**
   * For any bytes, well formed or not: however they are cut into segments and however arrivals,
   * writes and callbacks interleave, the run is on its way to the one-shot result if and only if
   * it reads no status line before the request for it is written; and then it has that result
   * when nothing more can happen.
   */
  lemma {:induction false} FragmentationIrrelevant(c: Conn, steps: seq<Step>)
    requires Consistent(c.reader) && Possible(c, steps)
    ensures DecodeOf(Run(c, steps)) == DecodeOf(c) <==> Attended(c, steps)
    ensures Attended(c, steps) && Quiescent(Run(c, steps)) ==> Run(c, steps) == DecodeOf(c)
    decreases |steps|
  {
    hide Do;
    if steps == [] {
      assert c.wire == "" ==> c.buffered + c.wire == c.buffered;
    } else if Unsolicited(c, steps[0]) {
      UnsolicitedDiffers(c, steps[1..]);
    } else {
      StepKeepsDecode(c, steps[0]);
      FragmentationIrrelevant(Do(c, steps[0]), steps[1..]);
    }
  }

  /** Any other run stops at the first unsolicited line, where it closes the connection. */
  lemma {:induction false} UnattendedStops(c: Conn, steps: seq<Step>) returns (k: nat)
    requires Consistent(c.reader) && Possible(c, steps) && !Attended(c, steps)
    ensures k < |steps| && Possible(c, steps[..k]) && Attended(c, steps[..k])
    ensures Awaiting(Run(c, steps[..k]).reader)
    ensures Run(c, steps).reader == Close(ReadDone(Run(c, steps[..k]).reader))
    decreases |steps|
  {
    hide Do;
    if Unsolicited(c, steps[0]) {
      k := 0;
      UnsolicitedCloses(c);
      ClosedRun(Do(c, steps[0]), steps[1..]);
    } else {
      var m := UnattendedStops(Do(c, steps[0]), steps[1..]);
      k := m + 1;
      assert steps[..k][0] == steps[0] && steps[..k][1..] == steps[1..][..m];
    }
  }

  /** Reading alone closes a connection only when nothing more is to be read on it. */
  predicate ReadToEnd(r: Reader) {
    r.closed ==> r.want == Nothing
  }

  lemma HandleReadsToEnd(r: Reader, text: string)
    requires Consistent(r) && r.want != Nothing && ReadToEnd(r)
    ensures ReadToEnd(Handle(r, text))
  {
    hide WithBody;
    hide HeaderValue;
    hide BodyReadOf;
    hide ParseStatusLine;
    hide ParseHeaderLine;
  }

  lemma {:induction false} RunReadsToEnd(c: Conn, steps: seq<Step>)
    requires Consistent(c.reader) && Possible(c, steps) && ReadToEnd(c.reader)
    ensures ReadToEnd(Run(c, steps).reader)
    decreases |steps|
  {
    hide Handle;
    if steps != [] {
      if steps[0].Callback? {
        HandleReadsToEnd(c.reader, Take(ReadOf(c.reader.want).value, c.buffered).value.0);
      }
      RunReadsToEnd(Do(c, steps[0]), steps[1..]);
    }
  }

  /** Calls already made and requests already written are never taken back. */
  lemma {:induction false} DecodeExtends(r: Reader, s: string, supply: seq<Request>)
    requires Consistent(r)
    ensures r.calls <= Decode(r, s, supply).reader.calls && r.attached <= Decode(r, s, supply).reader.attached
    decreases |s|, Rank(r), |supply|
  {
    if Awaiting(r) {
      if supply != [] {
        DecodeExtends(Written(r, supply[0]), s, supply[1..]);
      }
    } else if Consume(r, s).Some? {
      var (next, rest) := Consume(r, s).value;
      HandleExtendsCalls(r, Take(ReadOf(r.want).value, s).value.0);
      DecodeExtends(next, rest, supply);
    }
  }

  lemma HandleExtendsCalls(r: Reader, text: string)
    requires Consistent(r) && r.want != Nothing
    ensures r.calls <= Handle(r, text).calls && Handle(r, text).attached == r.attached
  {
    hide BodyReadOf;
    hide ParseStatusLine;
    hide ParseHeaderLine;
    hide Extract;
    hide Unframed;
    var x := Extended(r);
    assert x.want == r.want && x.res == r.res && x.calls == r.calls && x.attached == r.attached;
    hide Extended;
    if x.want == LastLine {
      ExtractExtendsCalls(x, "");
    } else if x.want.BodyBytes? {
      ExtractExtendsCalls(x, text);
    } else if x.want == HeaderLine && BodyReadOf(x.res.value.content.headers).Unstated? {
      UnframedExtendsCalls(x, BodyReadOf(x.res.value.content.headers).why);
    }
  }

  lemma ExtractExtendsCalls(r: Reader, data: string)
    requires r.res.Some?
    ensures r.calls <= Extract(r, data).calls && Extract(r, data).attached == r.attached
  {
    hide HeaderValue;
    hide WithBody;
    hide Settlement;
  }

  lemma UnframedExtendsCalls(r: Reader, why: string)
    ensures r.calls <= Unframed(r, why).calls && Unframed(r, why).attached == r.attached
  {
  }
}
