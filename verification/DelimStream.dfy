/** The delimited stream of test/streams.cpp: emits an item at every delimiter. */
module DelimStream {
  import opened Prelude
  import opened Text

  /** The complete items of a text, and the unfinished text after the last delimiter. */
  datatype Split = Split(items: seq<string>, tail: string)

  /** One-shot specification: the leftmost, non-overlapping split of a whole text. */
  function SplitAll(s: string, d: string): Split
    requires |d| > 0
    decreases |s|
  {
    match Find(s, d, 0)
    case None => Split([], s)
    case Some(i) =>
      var rest := SplitAll(s[i + |d|..], d);
      Split([s[..i]] + rest.items, rest.tail)
  }

  /** The text that a split stands for. */
  function Join(items: seq<string>, tail: string, d: string): string {
    if items == [] then tail else items[0] + d + Join(items[1..], tail, d)
  }

  /** The delimiter after `item` is the first one that can be seen. */
  ghost predicate Clean(item: string, d: string) {
    Find(item + d, d, 0) == Some(|item|)
  }

  /** What one more piece of input does to a split. */
  function Push(before: Split, d: string, piece: string): Split
    requires |d| > 0
  {
    var more := SplitAll(before.tail + piece, d);
    Split(before.items + more.items, more.tail)
  }

  function PushAll(before: Split, d: string, pieces: seq<string>): Split
    requires |d| > 0
    decreases |pieces|
  {
    if pieces == [] then before else PushAll(Push(before, d, pieces[0]), d, pieces[1..])
  }

  /** Splitting loses nothing, and every item and the tail are free of delimiters. */
  lemma {:induction false} JoinOfSplit(s: string, d: string)
    requires |d| > 0
    ensures var r := SplitAll(s, d);
            && Join(r.items, r.tail, d) == s
            && !Occurs(r.tail, d)
            && forall item <- r.items :: Clean(item, d)
    decreases |s|
  {
    hide Find;
    var r := SplitAll(s, d);
    FindsIffOccurs(s, d);
    match Find(s, d, 0) {
      case None =>
      case Some(i) =>
        var rest := s[i + |d|..];
        JoinOfSplit(rest, d);
        assert r.items[1..] == SplitAll(rest, d).items;
        FindBefore(s, d);
        assert s == s[..i] + d + rest;
    }
  }

  /** The definition of SplitAll, one item at a time. */
  lemma SplitAt(item: string, rest: string, d: string)
    requires |d| > 0
    requires Find(item + d + rest, d, 0) == Some(|item|)
    ensures var more := SplitAll(rest, d);
            SplitAll(item + d + rest, d) == Split([item] + more.items, more.tail)
  {
    assert (item + d + rest)[..|item|] == item;
    assert (item + d + rest)[|item| + |d|..] == rest;
  }

  lemma FindBefore(s: string, d: string)
    requires Find(s, d, 0).Some?
    ensures var i := Find(s, d, 0).value;
            s[i..i + |d|] == d && Clean(s[..i], d)
  {
    var r := Find(s, d, 0);
    FindIsLeftmost(s, d, 0, r);
    var t := s[..r.value] + d;
    assert s == "" + t + s[|t|..];
    forall j: nat | j <= r.value ensures OccursAt(t, d, j) == OccursAt(s, d, j) {
      OccursInside("", t, s[|t|..], d, j);
    }
    FindIsLeftmost(t, d, 0, r);
  }

  /** ... and those properties leave only one split: splitting undoes joining. */
  lemma {:induction false} SplitOfJoin(items: seq<string>, tail: string, d: string)
    requires |d| > 0
    requires forall item <- items :: Clean(item, d)
    requires !Occurs(tail, d)
    ensures SplitAll(Join(items, tail, d), d) == Split(items, tail)
  {
    if items == [] {
      FindsIffOccurs(tail, d);
    } else {
      var rest := Join(items[1..], tail, d);
      SplitOfJoin(items[1..], tail, d);
      assert Clean(items[0], d);
      FindStable(items[0] + d, rest, d);
      SplitAt(items[0], rest, d);
      assert [items[0]] + items[1..] == items;
    }
  }

  /** Input may be split anywhere: only the unfinished tail of the first part matters. */
  lemma {:induction false} SplitConcat(a: string, b: string, d: string)
    requires |d| > 0
    ensures SplitAll(a + b, d) == Push(SplitAll(a, d), d, b)
    decreases |a|, 1
  {
    match Find(a, d, 0) {
      case None =>
      case Some(i) =>
        var item, rest := a[0..i], a[i + |d|..];
        assert a == item + d + rest && a + b == item + d + (rest + b) by {
          FindIsLeftmost(a, d, 0, Some(i));
          CutAt(a, d, 0, i);
        }
        FindStable(a, b, d);
        SplitConcatStep(item, rest, b, d);
    }
  }

  lemma SplitConcatStep(item: string, rest: string, b: string, d: string)
    requires |d| > 0
    requires Find(item + d + rest, d, 0) == Find(item + d + (rest + b), d, 0) == Some(|item|)
    ensures SplitAll(item + d + (rest + b), d) == Push(SplitAll(item + d + rest, d), d, b)
    decreases |item + d + rest|, 0
  {
    hide SplitAll;
    hide Find;
    SplitAt(item, rest, d);
    SplitAt(item, rest + b, d);
    SplitConcat(rest, b, d);
    var x, y := SplitAll(rest, d), SplitAll(SplitAll(rest, d).tail + b, d);
    assert ([item] + x.items) + y.items == [item] + (x.items + y.items);
  }

  /** Whatever the fragmentation, the items and the tail are those of the whole text. */
  lemma {:induction false} ChunkingIrrelevant(start: Split, d: string, pieces: seq<string>)
    requires |d| > 0
    requires !Occurs(start.tail, d)
    ensures PushAll(start, d, pieces) == Push(start, d, Flatten(pieces))
    decreases |pieces|
  {
    if pieces == [] {
      assert start.tail + "" == start.tail;
      FindsIffOccurs(start.tail, d);
    } else {
      JoinOfSplit(start.tail + pieces[0], d);
      ChunkingIrrelevant(Push(start, d, pieces[0]), d, pieces[1..]);
      PushTwice(start, d, pieces[0], Flatten(pieces[1..]));
    }
  }

  lemma PushTwice(start: Split, d: string, a: string, b: string)
    requires |d| > 0
    ensures Push(Push(start, d, a), d, b) == Push(start, d, a + b)
  {
    hide SplitAll;
    var t := start.tail + a;
    SplitConcat(t, b, d);
    assert t + b == start.tail + (a + b);
    var x, y := SplitAll(t, d), SplitAll(SplitAll(t, d).tail + b, d);
    assert (start.items + x.items) + y.items == start.items + (x.items + y.items);
  }

  /** The state of the loop of `incoming` while its cursor is at `lp`. */
  ghost predicate AtCursor(data: string, s: string, lp: nat, d: string) {
    && 0 < |d|
    && lp <= |s|
    && (data != "" ==> lp == 0 && |d| - 1 <= |s| && !Occurs(data + s[..|d| - 1], d))
  }

  /**
   * Completed data needs no second look: when `|d| - 1` characters after it are known and
   * the delimiter is not in there, the search may start behind the data.
   */
  lemma CursorFind(data: string, s: string, lp: nat, d: string)
    requires AtCursor(data, s, lp, d)
    ensures Find(data + s[lp..], d, 0) ==
            match Find(s, d, lp) case None => None case Some(np) => Some(|data| + np - lp)
  {
    var t := data + s[lp..];
    FindFrom(s, d, lp, lp);
    FindFrom(t, d, |data|, |data|);
    assert t[|data|..] == s[lp..];
    forall j: nat | j < |data| ensures !OccursAt(t, d, j) {
      var known := data + s[..|d| - 1];
      assert t == "" + known + s[|d| - 1..];
      OccursInside("", known, s[|d| - 1..], d, j);
    }
    var r := Find(t, d, |data|);
    FindIsLeftmost(t, d, |data|, r);
    FindIsLeftmost(t, d, 0, r);
  }

  /** One turn of the loop that finds a delimiter completes exactly one item. */
  lemma ItemStep(done: seq<string>, data: string, s: string, lp: nat, d: string)
    requires AtCursor(data, s, lp, d)
    requires Find(s, d, lp).Some?
    ensures var np := Find(s, d, lp).value;
            Push(Split(done, data), d, s[lp..]) ==
            Push(Split(done + [data + s[lp..np]], ""), d, s[np + |d|..])
  {
    hide SplitAll;
    hide Find;
    CursorFind(data, s, lp, d);
    FindIsLeftmost(s, d, lp, Find(s, d, lp));
    var np := Find(s, d, lp).value;
    var item, rest := data + s[lp..np], s[np + |d|..];
    CutAt(s, d, lp, np);
    assert data + s[lp..] == item + d + rest;
    SplitAt(item, rest, d);
    assert "" + rest == rest;
    var more := SplitAll(rest, d).items;
    assert done + ([item] + more) == (done + [item]) + more;
  }

  /** The turn that finds none keeps all the text unfinished. */
  lemma TailStep(done: seq<string>, data: string, s: string, lp: nat, d: string)
    requires AtCursor(data, s, lp, d)
    requires Find(s, d, lp).None?
    ensures !Occurs(data + s[lp..], d)
    ensures Push(Split(done, data), d, s[lp..]) == Split(done, data + s[lp..])
  {
    CursorFind(data, s, lp, d);
    FindsIffOccurs(data + s[lp..], d);
  }

  class Stream {
    const delim: string
    var data: string
    var partial: string
    /** Everything the sink has been handed. */
    var emitted: seq<string>

    ghost predicate Valid()
      reads this
    {
      && 0 < |delim|
      && |partial| < |delim|
      && (data != "" ==> |partial| == |delim| - 1)
      && !Occurs(data + partial, delim)
    }

    ghost function State(): Split
      reads this
    {
      Split(emitted, data + partial)
    }

    constructor (d: string)
      requires |d| > 0
      ensures Valid() && delim == d && State() == Split([], "")
    {
      delim, data, partial, emitted := d, "", "", [];
    }

    method Emit()
      modifies this
      ensures emitted == old(emitted) + [old(data)] && data == "" && partial == old(partial)
    {
      emitted := emitted + [data];
      data := "";
    }

    /** Keeps the last `|delim| - 1` characters back: a delimiter may be completed there. */
    method Stash(s: string, lp: nat)
      requires 0 < |delim| && lp <= |s|
      requires data != "" ==> |delim| - 1 <= |s| - lp
      modifies this
      ensures data + partial == old(data) + s[lp..] && emitted == old(emitted)
      ensures |partial| < |delim| && (data != "" ==> |partial| == |delim| - 1)
    {
      var remainder := |s| - lp;
      var partialLen := |delim| - 1;
      if partialLen >= remainder {
        partial := s[lp..];
      } else {
        data := data + s[lp..lp + (remainder - partialLen)];
        partial := s[lp + remainder - partialLen..];
      }
    }

    method Incoming(piece: string)
      requires Valid()
      modifies this
      ensures Valid() && State() == Push(old(State()), delim, piece)
    {
      hide SplitAll;
      hide Find;
      var s := partial + piece;
      var lp := 0;
      assert data + s[lp..] == data + partial + piece;
      assert data != "" ==> s[..|delim| - 1] == partial;
      while true
        invariant AtCursor(data, s, lp, delim)
        invariant partial == old(partial)
        invariant Push(Split(emitted, data), delim, s[lp..]) == Push(old(State()), delim, piece)
        decreases |s| - lp
      {
        var np := Find(s, delim, lp);
        if np.None? {
          TailStep(emitted, data, s, lp, delim);
          Stash(s, lp);
          return;
        }
        ItemStep(emitted, data, s, lp, delim);
        data := data + s[lp..np.value];
        Emit();
        lp := np.value + |delim|;
      }
    }
  }
}
