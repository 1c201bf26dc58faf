/** A header line of a message: include/net/asio/http/header.h. */
module Header {

  datatype Header = Header(key: string, value: string)

  function Lower(c: char): char {
    if 'A' <= c <= 'Z' then (c as int + 32) as char else c
  }

  function Upper(c: char): char {
    if 'a' <= c <= 'z' then (c as int - 32) as char else c
  }

  /** Every run without a dash gets one capital, in front; dashes stay. */
  function NormalizeKey(k: string): string {
    seq(|k|, i requires 0 <= i < |k| => if i == 0 || k[i - 1] == '-' then Upper(k[i]) else Lower(k[i]))
  }

  /** The constructor of header, which normalises the key and keeps the value. */
  function Make(k: string, v: string): Header {
    Header(NormalizeKey(k), v)
  }

  predicate Matches(h: Header, k: string) {
    NormalizeKey(k) == h.key
  }

  ghost predicate EqualIgnoringCase(a: string, b: string) {
    |a| == |b| && forall i | 0 <= i < |a| :: Lower(a[i]) == Lower(b[i])
  }

  predicate Normalized(k: string) {
    NormalizeKey(k) == k
  }

  const SMALL := "abcdefghijklmnopqrstuvwxyz"
  const CAPITAL := "ABCDEFGHIJKLMNOPQRSTUVWXYZ"

  /** Letters change their case and nothing else changes. */
  lemma CaseOfLetter(c: char, i: nat)
    requires i < 26
    ensures Upper(SMALL[i]) == CAPITAL[i] == Upper(CAPITAL[i]) && Lower(CAPITAL[i]) == SMALL[i] == Lower(SMALL[i])
    ensures c !in SMALL ==> Upper(c) == c
    ensures c !in CAPITAL ==> Lower(c) == c
  {
    LetterListed(c);
    LetterAt(i);
    hide SMALL;
    hide CAPITAL;
  }

  lemma LetterAt(i: nat)
    requires i < 26
    ensures |SMALL| == |CAPITAL| == 26
    ensures SMALL[i] as int == 'a' as int + i && CAPITAL[i] as int == 'A' as int + i
  {
  }

  lemma LetterListed(c: char)
    ensures c in SMALL <==> 'a' <= c <= 'z'
    ensures c in CAPITAL <==> 'A' <= c <= 'Z'
  {
    forall i: nat | i < 26 ensures SMALL[i] as int == 'a' as int + i && CAPITAL[i] as int == 'A' as int + i {
      LetterAt(i);
    }
    LetterAt(0);
    hide SMALL;
    hide CAPITAL;
    assert 'a' <= c <= 'z' ==> SMALL[c as int - 'a' as int] == c;
    assert 'A' <= c <= 'Z' ==> CAPITAL[c as int - 'A' as int] == c;
  }

  /** The first letter of a run becomes a capital and the others small; no other character changes. */
  lemma NormalizedCase(k: string, i: nat)
    requires i < |k|
    ensures |NormalizeKey(k)| == |k| && Lower(NormalizeKey(k)[i]) == Lower(k[i])
    ensures var c := NormalizeKey(k)[i];
            if i == 0 || k[i - 1] == '-' then !('a' <= c <= 'z') else !('A' <= c <= 'Z')
  {
  }

  /** Two keys of the normalisation scenario in test/http.cpp. */
  lemma NormalizationCases()
    ensures NormalizeKey("x-mOrE-iNfo") == "X-More-Info" && NormalizeKey(":http") == ":http"
  {
  }

  lemma NormalizeIdempotent(k: string)
    ensures Normalized(NormalizeKey(k))
  {
  }

  /** Header lookups are exactly the case-insensitive ones. */
  lemma SameKeyIffEqualIgnoringCase(a: string, b: string)
    ensures NormalizeKey(a) == NormalizeKey(b) <==> EqualIgnoringCase(a, b)
  {
    var na, nb := NormalizeKey(a), NormalizeKey(b);
    if na == nb {
      forall i | 0 <= i < |a| ensures Lower(a[i]) == Lower(b[i]) {
        assert Lower(na[i]) == Lower(a[i]) && Lower(nb[i]) == Lower(b[i]);
      }
    }
    if EqualIgnoringCase(a, b) {
      forall i | 0 <= i < |a| ensures na[i] == nb[i] {
        assert Upper(Lower(a[i])) == Upper(a[i]) && Upper(Lower(b[i])) == Upper(b[i]);
        if i > 0 {
          assert Lower(a[i - 1]) == Lower(b[i - 1]);
        }
      }
    }
  }

  function LowerAll(s: string): string {
    seq(|s|, i requires 0 <= i < |s| => Lower(s[i]))
  }

  /** What one replacement of the regular expression does: a maximal run between dashes. */
  lemma NormalizeRun(before: string, run: string, after: string)
    requires run != "" && '-' !in run
    requires before == "" || before[|before| - 1] == '-'
    requires after == "" || after[0] == '-'
    ensures NormalizeKey(before + run + after) ==
            NormalizeKey(before) + [Upper(run[0])] + LowerAll(run[1..]) + NormalizeKey(after)
  {
  }
}
