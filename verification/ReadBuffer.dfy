/** The buffered reads of include/net/asio/http/connection/tcp.h. */
module ReadBuffer {
  import opened Prelude
  import opened Text

  /** A read that was asked for: up to a delimiter, or an exact number of bytes. */
  datatype Read = Delimited(delim: string) | Exactly(n: nat)

  /** What a read takes from the front of a text, and what it leaves. */
  function Take(read: Read, s: string): (r: Option<(string, string)>)
    ensures r.Some? ==> |r.value.1| <= |s|
  {
    match read
    case Delimited(delim) =>
      (match Find(s, delim, 0)
       case None => None
       case Some(i) => Some((s[..i], s[i + |delim|..])))
    case Exactly(n) => if n <= |s| then Some((s[..n], s[n..])) else None
  }

  /** The delimiter that a read removes behind its result. */
  function Delimiter(read: Read): string {
    match read case Delimited(delim) => delim case Exactly(_) => ""
  }

  /** A read loses nothing, and its result ends before the first delimiter. */
  lemma TakeConserves(read: Read, s: string)
    requires Take(read, s).Some?
    ensures var (text, rest) := Take(read, s).value;
            && text + Delimiter(read) + rest == s
            && (read.Exactly? ==> |text| == read.n)
            && (read.Delimited? ==> Find(text + read.delim, read.delim, 0) == Some(|text|))
  {
    hide Find;
    match read {
      case Delimited(delim) =>
        var i := Find(s, delim, 0).value;
        FindIsLeftmost(s, delim, 0, Some(i));
        CutAt(s, delim, 0, i);
        assert s[0..i] == s[..i];
        var t := s[..i] + delim;
        assert s == "" + t + s[i + |delim|..];
        forall j: nat | j <= i ensures OccursAt(t, delim, j) == OccursAt(s, delim, j) {
          OccursInside("", t, s[i + |delim|..], delim, j);
        }
        FindIsLeftmost(t, delim, 0, Some(i));
      case Exactly(_) =>
    }
  }

  /** Once a read can complete, bytes that arrive later do not change its result. */
  lemma TakeStable(read: Read, buffered: string, later: string)
    requires Take(read, buffered).Some?
    ensures var (text, rest) := Take(read, buffered).value;
            Take(read, buffered + later) == Some((text, rest + later))
  {
    hide Find;
    match read {
      case Delimited(delim) =>
        FindStable(buffered, later, delim);
        var i := Find(buffered, delim, 0).value;
        assert (buffered + later)[..i] == buffered[..i];
        assert (buffered + later)[i + |delim|..] == buffered[i + |delim|..] + later;
      case Exactly(n) =>
        assert (buffered + later)[..n] == buffered[..n];
        assert (buffered + later)[n..] == buffered[n..] + later;
    }
  }

  /** Bytes move from the socket into the buffer, or a read takes its result out of it. */
  datatype Step = Arrive(k: nat) | Complete(read: Read)

  datatype Io = Io(buffered: string, wire: string, results: seq<string>)

  predicate Enabled(io: Io, step: Step) {
    match step
    case Arrive(k) => k <= |io.wire|
    case Complete(read) => Take(read, io.buffered).Some?
  }

  function Do(io: Io, step: Step): Io
    requires Enabled(io, step)
  {
    match step
    case Arrive(k) => io.(buffered := io.buffered + io.wire[..k], wire := io.wire[k..])
    case Complete(read) =>
      var (text, rest) := Take(read, io.buffered).value;
      io.(buffered := rest, results := io.results + [text])
  }

  predicate Possible(io: Io, steps: seq<Step>)
    decreases |steps|
  {
    steps == [] || (Enabled(io, steps[0]) && Possible(Do(io, steps[0]), steps[1..]))
  }

  function Run(io: Io, steps: seq<Step>): Io
    requires Possible(io, steps)
    decreases |steps|
  {
    if steps == [] then io else Run(Do(io, steps[0]), steps[1..])
  }

  function Reads(steps: seq<Step>): seq<Read> {
    if steps == [] then []
    else (if steps[0].Complete? then [steps[0].read] else []) + Reads(steps[1..])
  }

  /** The reads done one after the other on a stream that is there from the start. */
  function TakeAll(wanted: seq<Read>, s: string): Option<(seq<string>, string)> {
    if wanted == [] then Some(([], s))
    else
      match Take(wanted[0], s)
      case None => None
      case Some((text, rest)) =>
        match TakeAll(wanted[1..], rest)
        case None => None
        case Some((texts, end)) => Some(([text] + texts, end))
  }

  /**
   * Buffering refines the plain stream: however arrivals and reads interleave and however far
   * the socket reads ahead, the results are those of reading the whole stream, and the buffer
   * and the bytes not yet received are what is left of it.
   */
  lemma {:induction false} BufferingInvisible(io: Io, steps: seq<Step>)
    requires Possible(io, steps)
    ensures var end := Run(io, steps);
            && io.results <= end.results
            && TakeAll(Reads(steps), io.buffered + io.wire) ==
               Some((end.results[|io.results|..], end.buffered + end.wire))
    decreases |steps|
  {
    hide Take;
    hide TakeAll;
    if steps == [] {
      TakeNone(io.buffered + io.wire);
      assert io.results[|io.results|..] == [];
    } else {
      var next, more := Do(io, steps[0]), Reads(steps[1..]);
      BufferingInvisible(next, steps[1..]);
      var end := Run(io, steps);
      match steps[0] {
        case Arrive(k) =>
          assert io.wire == io.wire[..k] + io.wire[k..];
          assert next.buffered + next.wire == io.buffered + io.wire;
          assert Reads(steps) == more;
        case Complete(read) =>
          TakeStable(read, io.buffered, io.wire);
          var text := Take(read, io.buffered).value.0;
          assert Reads(steps) == [read] + more;
          TakeFirst(read, more, io.buffered + io.wire);
          assert end.results[|io.results|..] == [text] + end.results[|next.results|..];
      }
    }
  }

  lemma TakeNone(s: string)
    ensures TakeAll([], s) == Some(([], s))
  {
  }

  lemma TakeFirst(read: Read, more: seq<Read>, s: string)
    requires Take(read, s).Some? && TakeAll(more, Take(read, s).value.1).Some?
    ensures var (text, rest) := Take(read, s).value;
            var (texts, end) := TakeAll(more, rest).value;
            TakeAll([read] + more, s) == Some(([text] + texts, end))
  {
    hide Take;
    assert ([read] + more)[1..] == more;
  }

  /** The text that the reads took: their results, each followed by its delimiter. */
  function Spell(wanted: seq<Read>, texts: seq<string>): string
    requires |wanted| == |texts|
  {
    if wanted == [] then "" else texts[0] + Delimiter(wanted[0]) + Spell(wanted[1..], texts[1..])
  }

  /** Results, removed delimiters and what is left always make up the original stream. */
  lemma {:induction false} ReadsConserve(wanted: seq<Read>, s: string)
    requires TakeAll(wanted, s).Some?
    ensures var (texts, left) := TakeAll(wanted, s).value;
            |texts| == |wanted| && Spell(wanted, texts) + left == s
    decreases |wanted|
  {
    hide Take;
    var (texts, left) := TakeAll(wanted, s).value;
    if wanted == [] {
      assert "" + left == s;
    } else {
      var (text, rest) := Take(wanted[0], s).value;
      TakeConserves(wanted[0], s);
      ReadsConserve(wanted[1..], rest);
      assert texts[1..] == TakeAll(wanted[1..], rest).value.0;
      var head := text + Delimiter(wanted[0]);
      assert head + Spell(wanted[1..], texts[1..]) + left == head + (Spell(wanted[1..], texts[1..]) + left);
    }
  }
}
