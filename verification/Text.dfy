/** The std::string operations the code relies on, with what they mean. */
module Text {
  import opened Prelude

  const CRLF: string := "\r\n"

  /** `d` occurs in `s` at position `i`. */
  predicate OccursAt(s: string, d: string, i: nat) {
    i + |d| <= |s| && s[i..i + |d|] == d
  }

  ghost predicate Occurs(s: string, d: string) {
    exists i: nat :: OccursAt(s, d, i)
  }

  /** std::string::find: searches `s` for `d` from position `from` on. */
  function Find(s: string, d: string, from: nat): (r: Option<nat>)
    ensures r.Some? ==> from <= r.value && r.value + |d| <= |s|
    decreases |s| - from
  {
    if from + |d| > |s| then None
    else if OccursAt(s, d, from) then Some(from)
    else Find(s, d, from + 1)
  }

  /** `r` is the leftmost occurrence of `d` in `s` at or after `from`, if there is one. */
  ghost predicate Leftmost(s: string, d: string, from: nat, r: Option<nat>) {
    && (r.Some? ==> from <= r.value && OccursAt(s, d, r.value))
    && forall j: nat | from <= j && (r.Some? ==> j < r.value) :: !OccursAt(s, d, j)
  }

  /** Find returns the leftmost occurrence and nothing else. */
  lemma {:induction false} FindIsLeftmost(s: string, d: string, from: nat, r: Option<nat>)
    ensures Find(s, d, from) == r <==> Leftmost(s, d, from, r)
    decreases |s| - from
  {
    if from + |d| <= |s| && !OccursAt(s, d, from) {
      FindIsLeftmost(s, d, from + 1, r);
    } else {
      assert OccursAt(s, d, from) || forall j: nat | from <= j :: !OccursAt(s, d, j);
      if r.Some? && OccursAt(s, d, from) {
        assert r.value == from || !Leftmost(s, d, from, r);
      }
    }
  }

  /** An occurrence cuts the text behind the cursor in three. */
  lemma CutAt(s: string, d: string, from: nat, i: nat)
    requires from <= i && OccursAt(s, d, i)
    ensures s[from..] == s[from..i] + d + s[i + |d|..]
  {
    assert s[from..] == s[from..i] + s[i..i + |d|] + s[i + |d|..];
  }

  lemma FindsIffOccurs(s: string, d: string)
    ensures Find(s, d, 0).Some? <==> Occurs(s, d)
  {
    FindIsLeftmost(s, d, 0, Find(s, d, 0));
  }

  /** Characters after an occurrence, or before one, do not move it relative to its own text. */
  lemma OccursInside(a: string, b: string, c: string, d: string, i: nat)
    requires i + |d| <= |b|
    ensures OccursAt(a + b + c, d, |a| + i) == OccursAt(b, d, i)
  {
    assert (a + b + c)[|a| + i..|a| + i + |d|] == b[i..i + |d|];
  }

  /** A prefix of the text already decides where the first occurrence is. */
  lemma FindStable(a: string, b: string, d: string)
    requires Find(a, d, 0).Some?
    ensures Find(a + b, d, 0) == Find(a, d, 0)
  {
    var r := Find(a, d, 0);
    FindIsLeftmost(a, d, 0, r);
    assert "" + a + b == a + b;
    forall j: nat | j <= r.value ensures OccursAt(a + b, d, j) == OccursAt(a, d, j) {
      OccursInside("", a, b, d, j);
    }
    FindIsLeftmost(a + b, d, 0, r);
  }

  /** Searching from a cursor is searching the text behind the cursor. */
  lemma {:induction false} FindFrom(s: string, d: string, from: nat, at: nat)
    requires from <= at <= |s|
    ensures Find(s, d, at) ==
            match Find(s[from..], d, at - from) case None => None case Some(i) => Some(from + i)
    decreases |s| - at
  {
    if at + |d| <= |s| {
      assert s[from..][at - from..at - from + |d|] == s[at..at + |d|];
      if !OccursAt(s, d, at) && at < |s| {
        FindFrom(s, d, from, at + 1);
      }
    }
  }

  /** A line without CRLF ends exactly where the CRLF after it begins. */
  lemma FindLineEnd(line: string, rest: string)
    requires OneLine(line)
    ensures Find(line + CRLF + rest, CRLF, 0) == Some(|line|)
  {
    var s := line + CRLF + rest;
    assert OccursAt(s, CRLF, |line|);
    forall j: nat | j < |line| ensures !OccursAt(s, CRLF, j) {
      assert s[j..j + 2] == [s[j], s[j + 1]];
    }
    FindIsLeftmost(s, CRLF, 0, Some(|line|));
  }

  /** The text that was received in pieces. */
  function Flatten(pieces: seq<string>): string {
    if pieces == [] then "" else pieces[0] + Flatten(pieces[1..])
  }

  /** `s` holds no line break: the form of `!Occurs(s, CRLF)` that looks at characters. */
  predicate OneLine(s: string) {
    forall i | 0 <= i < |s| - 1 :: !(s[i] == '\r' && s[i + 1] == '\n')
  }

  lemma OneLineIffNoCRLF(s: string)
    ensures OneLine(s) <==> !Occurs(s, CRLF)
  {
    forall i: nat | i + 2 <= |s| ensures OccursAt(s, CRLF, i) <==> s[i] == '\r' && s[i + 1] == '\n' {
      assert s[i..i + 2] == [s[i], s[i + 1]];
    }
    if !OneLine(s) {
      var i :| 0 <= i < |s| - 1 && s[i] == '\r' && s[i + 1] == '\n';
      assert OccursAt(s, CRLF, i);
    }
    if Occurs(s, CRLF) {
      var i: nat :| OccursAt(s, CRLF, i);
      assert s[i] == '\r' && s[i + 1] == '\n';
    }
  }

  lemma OneLinePart(a: string, b: string, c: string)
    requires OneLine(a + b + c)
    ensures OneLine(b)
  {
    var s := a + b + c;
    forall i | 0 <= i < |b| - 1 ensures !(b[i] == '\r' && b[i + 1] == '\n') {
      assert s[|a| + i] == b[i] && s[|a| + i + 1] == b[i + 1];
    }
  }

  lemma OneLineSlice(s: string, from: nat, to: nat)
    requires OneLine(s) && from <= to <= |s|
    ensures OneLine(s[from..to])
  {
    assert s[..from] + s[from..to] + s[to..] == s;
    OneLinePart(s[..from], s[from..to], s[to..]);
  }

  lemma OneLineJoin(a: string, c: char, b: string)
    requires OneLine(a) && OneLine(b) && c != '\r' && c != '\n'
    ensures OneLine(a + [c] + b)
  {
    var s := a + [c] + b;
    forall i | 0 <= i < |s| - 1 ensures !(s[i] == '\r' && s[i + 1] == '\n') {
      if i + 1 < |a| {
        assert s[i] == a[i] && s[i + 1] == a[i + 1];
      } else if i > |a| {
        assert s[i] == b[i - |a| - 1] && s[i + 1] == b[i - |a|];
      }
    }
  }

  /** The first character `c` of a text is found where it stands. */
  lemma FindChar(before: string, c: char, after: string)
    requires c !in before
    ensures Find(before + [c] + after, [c], 0) == Some(|before|)
  {
    var s := before + [c] + after;
    assert OccursAt(s, [c], |before|);
    forall j: nat | j < |before| ensures !OccursAt(s, [c], j) {
      assert s[j..j + 1] == [before[j]];
    }
    FindIsLeftmost(s, [c], 0, Some(|before|));
  }

  /** Before the first occurrence of a character there is none, and it stands there. */
  lemma FoundChar(s: string, c: char)
    ensures match Find(s, [c], 0)
            case None => c !in s
            case Some(i) => s[i] == c && c !in s[..i]
  {
    FindIsLeftmost(s, [c], 0, Find(s, [c], 0));
    forall j: nat | j < |s| ensures OccursAt(s, [c], j) <==> s[j] == c {
      assert s[j..j + 1] == [s[j]];
    }
  }

  /** The text before the first line break is one line. */
  lemma FoundLine(s: string)
    requires Find(s, CRLF, 0).Some?
    ensures OneLine(s[..Find(s, CRLF, 0).value])
  {
    var e := Find(s, CRLF, 0).value;
    FindIsLeftmost(s, CRLF, 0, Some(e));
    forall i: nat ensures !OccursAt(s[..e], CRLF, i) {
      assert i + 2 <= e ==> s[..e][i..i + 2] == s[i..i + 2] && !OccursAt(s, CRLF, i);
    }
    OneLineIffNoCRLF(s[..e]);
  }

  /** isspace in the C locale. */
  predicate IsSpace(c: char) {
    c == ' ' || '\t' <= c <= '\r'
  }

  /** The six blanks: space, tab, line feed, vertical tab, form feed, carriage return. */
  lemma SixBlanks(c: char)
    ensures IsSpace(c) <==> c in [' ', '\t', '\n', 11 as char, 12 as char, '\r']
  {
  }

  predicate AllSpace(s: string) {
    forall i | 0 <= i < |s| :: IsSpace(s[i])
  }

  function TrimLeft(s: string): string {
    if s != "" && IsSpace(s[0]) then TrimLeft(s[1..]) else s
  }

  function TrimRight(s: string): string {
    if s != "" && IsSpace(s[|s| - 1]) then TrimRight(s[..|s| - 1]) else s
  }

  /** boost::algorithm::trim. */
  function Trim(s: string): string {
    TrimRight(TrimLeft(s))
  }

  predicate Trimmed(s: string) {
    s != "" ==> !IsSpace(s[0]) && !IsSpace(s[|s| - 1])
  }

  lemma {:induction false} TrimLeftSplits(s: string) returns (left: string)
    ensures AllSpace(left) && s == left + TrimLeft(s)
    ensures TrimLeft(s) != "" ==> !IsSpace(TrimLeft(s)[0])
  {
    left := "";
    if s != "" && IsSpace(s[0]) {
      var l := TrimLeftSplits(s[1..]);
      left := [s[0]] + l;
    }
  }

  lemma {:induction false} TrimRightSplits(s: string) returns (right: string)
    ensures AllSpace(right) && s == TrimRight(s) + right
    ensures TrimRight(s) != "" ==> !IsSpace(TrimRight(s)[|TrimRight(s)| - 1])
  {
    right := "";
    if s != "" && IsSpace(s[|s| - 1]) {
      var r := TrimRightSplits(s[..|s| - 1]);
      right := r + [s[|s| - 1]];
    }
  }

  /** Trimming removes blanks at both ends, and nothing but blanks. */
  lemma TrimSplits(s: string) returns (left: string, right: string)
    ensures s == left + Trim(s) + right
    ensures AllSpace(left) && AllSpace(right) && Trimmed(Trim(s))
  {
    left := TrimLeftSplits(s);
    right := TrimRightSplits(TrimLeft(s));
    assert TrimLeft(s) == Trim(s) + right;
    if Trim(s) != "" {
      assert TrimLeft(s)[0] == Trim(s)[0];
    }
  }

  /** A trimmed value survives whatever blanks are put around it. */
  lemma {:induction false} TrimOfPadded(left: string, v: string, right: string)
    requires AllSpace(left) && AllSpace(right) && Trimmed(v)
    ensures Trim(left + v + right) == v
    decreases |left| + |right|
  {
    var s := left + v + right;
    if left != "" {
      assert s[1..] == left[1..] + v + right;
      TrimOfPadded(left[1..], v, right);
    } else if v == "" {
      assert s == right;
      if right != "" {
        assert right[1..] == "" + v + right[1..];
        TrimOfPadded("", v, right[1..]);
      }
    } else {
      assert TrimLeft(s) == s;
      if right != "" {
        assert s[..|s| - 1] == left + v + right[..|right| - 1];
        TrimOfPadded(left, v, right[..|right| - 1]);
        assert TrimLeft(s[..|s| - 1]) == s[..|s| - 1];
      }
    }
  }
}
