/** The string rewrites of the endpoints: the tag-removing regular expression
    `/<[^>]+>/g`, whitespace collapsing `/\s+/g` and `trim()`. */
module Text {
  import opened Js
  import opened Seqs

  /** Index of the first occurrence of `c` in `s`. */
  function IndexOf(s: string, c: char): (r: Option<nat>)
    ensures r.Some? ==> r.value < |s| && s[r.value] == c && c !in s[..r.value]
    ensures r.None? ==> c !in s
  {
    if s == [] then None
    else if s[0] == c then Some(0)
    else match IndexOf(s[1..], c)
      case None => None
      case Some(k) =>
        assert s[..k + 1] == [s[0]] + s[1..][..k];
        Some(k + 1)
  }

  /** `/<[^>]+>/` matches at the start of `s`: a '<', at least one character
      other than '>', then a '>'. */
  predicate TagAtStart(s: string) {
    |s| > 0 && s[0] == '<'
    && match IndexOf(s, '>')
       case None => false
       case Some(q) => q >= 2
  }

  /** No match of `/<[^>]+>/` anywhere in `s`. */
  predicate TagFree(s: string) {
    forall i :: 0 <= i < |s| ==> !TagAtStart(s[i..])
  }

  /** `s.replace(/<[^>]+>/g, "")`: scanning left to right, each match is removed and
      the scan resumes after it. Removal only deletes characters. */
  function RemoveTags(s: string): (r: string)
    ensures IsSubseq(r, s)
    decreases |s|
  {
    if s == [] then []
    else if TagAtStart(s) then
      var e := IndexOf(s, '>').value + 1;
      var rest := RemoveTags(s[e..]);
      SubseqOfSuffix(rest, s, e);
      rest
    else
      var rest := RemoveTags(s[1..]);
      assert ([s[0]] + rest)[1..] == rest;
      [s[0]] + rest
  }

  /** Removal is complete: what is left holds no tag, even where removing one tag
      brought a '<' and a later '>' together. */
  lemma {:induction false} RemoveTagsTagFree(s: string)
    ensures TagFree(RemoveTags(s))
    decreases |s|
  {
    if s == [] {
    } else if TagAtStart(s) {
      RemoveTagsTagFree(s[IndexOf(s, '>').value + 1..]);
    } else {
      var rest := RemoveTags(s[1..]);
      var r := [s[0]] + rest;
      assert RemoveTags(s) == r;
      RemoveTagsTagFree(s[1..]);
      forall i | 1 <= i < |r| ensures !TagAtStart(r[i..]) {
        assert r[i..] == rest[i - 1..];
      }
      if s[0] == '<' {
        match IndexOf(s, '>')
        case None =>
          SubseqMembers(rest, s[1..]);
          assert '>' !in s[1..];
          assert '>' !in r;
        case Some(q) =>
          assert q == 1;
          assert s[1] != '<';
          assert s[1..][1..] == s[2..];
          assert rest == [s[1]] + RemoveTags(s[2..]);
          assert IndexOf(r, '>') == Some(1);
      }
    }
  }

  /** Text before the first '<' is kept verbatim, white space included, whatever
      follows it. */
  lemma {:induction false} RemoveTagsKeepsPlainPrefix(a: string, b: string)
    requires '<' !in a
    ensures RemoveTags(a + b) == a + RemoveTags(b)
    decreases |a|
  {
    if a == [] {
      assert a + b == b;
    } else {
      assert (a + b)[1..] == a[1..] + b;
      RemoveTagsKeepsPlainPrefix(a[1..], b);
      ConcatAssoc([a[0]], a[1..], RemoveTags(b));
      assert [a[0]] + a[1..] == a;
    }
  }

  /** A character that opens no tag, a stray '<' included, is kept, and the scan
      goes on from the next one. */
  lemma RemoveTagsKeepsNonTag(s: string)
    requires s != [] && !TagAtStart(s)
    ensures RemoveTags(s) == [s[0]] + RemoveTags(s[1..])
  {
  }

  /** A whole tag at the front is removed, and the text after it is scanned as if
      the tag had never been there. */
  lemma RemoveTagsDropsLeadingTag(t: string, b: string)
    requires TagAtStart(t) && IndexOf(t, '>') == Some(|t| - 1)
    ensures RemoveTags(t + b) == RemoveTags(b)
  {
    var s := t + b;
    var k := IndexOf(s, '>');
    assert s[|t| - 1] == '>';
    assert s[..|t| - 1] == t[..|t| - 1];
    assert k == Some(|t| - 1);
    assert s[|t|..] == b;
  }

  /** `s.replace(/\s+/g, " ")`: each maximal run of white space becomes one blank. */
  function CollapseSpaces(s: string): (r: string)
    ensures |r| <= |s|
    ensures r == [] <==> s == []
    ensures r != [] ==> (IsSpace(r[0]) <==> IsSpace(s[0]))
    ensures r != [] ==> (IsSpace(r[|r| - 1]) <==> IsSpace(s[|s| - 1]))
    ensures SingleSpaced(r)
    decreases |s|
  {
    if s == [] then []
    else if IsSpace(s[0]) then
      SingleSpacedCons(' ', CollapseSpaces(TrimStart(s[1..])));
      [' '] + CollapseSpaces(TrimStart(s[1..]))
    else
      SingleSpacedCons(s[0], CollapseSpaces(s[1..]));
      [s[0]] + CollapseSpaces(s[1..])
  }

  lemma {:induction false} SingleSpacedCons(h: char, r: string)
    requires SingleSpaced(r)
    requires IsSpace(h) ==> h == ' ' && (r == [] || !IsSpace(r[0]))
    ensures SingleSpaced([h] + r)
  {
    var s := [h] + r;
    forall i, j | 0 <= i < j < |s| && j == i + 1 ensures !(IsSpace(s[i]) && IsSpace(s[j])) {
      if i > 0 {
        assert s[i] == r[i - 1] && s[j] == r[j - 1];
      }
    }
  }

  /** Every white space character is a blank and no two are adjacent. */
  ghost predicate SingleSpaced(s: string) {
    (forall i :: 0 <= i < |s| && IsSpace(s[i]) ==> s[i] == ' ')
    && (forall i, j :: 0 <= i < j < |s| && j == i + 1 ==> !(IsSpace(s[i]) && IsSpace(s[j])))
  }

  lemma {:induction false} SingleSpacedSlice(s: string, a: nat, b: nat)
    requires a <= b <= |s| && SingleSpaced(s)
    ensures SingleSpaced(s[a..b])
  {
    var t := s[a..b];
    forall i, j | 0 <= i < j < |t| && j == i + 1 ensures !(IsSpace(t[i]) && IsSpace(t[j])) {
      assert t[i] == s[a + i] && t[j] == s[a + j];
    }
  }

  /** Leading white space removed: `r` is the suffix of `s` after its leading run. */
  function TrimStart(s: string): (r: string)
    ensures |r| <= |s| && r == s[|s| - |r|..]
    ensures forall i :: 0 <= i < |s| - |r| ==> IsSpace(s[i])
    ensures r == [] || !IsSpace(r[0])
  {
    if s != [] && IsSpace(s[0]) then TrimStart(s[1..]) else s
  }

  /** Trailing white space removed: `r` is the prefix of `s` before its trailing run. */
  function TrimEnd(s: string): (r: string)
    ensures r <= s
    ensures forall i :: |r| <= i < |s| ==> IsSpace(s[i])
    ensures r == [] || !IsSpace(r[|r| - 1])
  {
    if s != [] && IsSpace(s[|s| - 1]) then TrimEnd(s[..|s| - 1]) else s
  }

  /** `s.trim()`: leading white space dropped (`TrimStart`), then what is left cut just
      before its trailing white space, so that `r` is the slice of `s` between the two runs. */
  function Trim(s: string): (r: string)
    ensures r == [] || (!IsSpace(r[0]) && !IsSpace(r[|r| - 1]))
    ensures var t := TrimStart(s); r <= t && forall i :: |r| <= i < |t| ==> IsSpace(t[i])
  {
    TrimEnds(s);
    TrimEnd(TrimStart(s))
  }

  lemma TrimEnds(s: string)
    ensures var r := TrimEnd(TrimStart(s)); r == [] || (!IsSpace(r[0]) && !IsSpace(r[|r| - 1]))
  {
    var t := TrimStart(s);
    assert TrimEnd(t) != [] ==> TrimEnd(t)[0] == t[0];
  }

  /** The characters of `s` that are not white space, in order. */
  function NonSpace(s: string): string {
    if s == [] then []
    else (if IsSpace(s[0]) then [] else [s[0]]) + NonSpace(s[1..])
  }

  lemma {:induction false} NonSpaceConcat(a: string, b: string)
    ensures NonSpace(a + b) == NonSpace(a) + NonSpace(b)
  {
    if a == [] {
      assert a + b == b;
    } else {
      assert (a + b)[1..] == a[1..] + b;
      NonSpaceConcat(a[1..], b);
    }
  }

  lemma {:induction false} NonSpaceAllSpace(s: string)
    requires forall i :: 0 <= i < |s| ==> IsSpace(s[i])
    ensures NonSpace(s) == []
  {
    if s != [] {
      NonSpaceAllSpace(s[1..]);
    }
  }

  lemma {:induction false} NonSpaceTrimStart(s: string)
    ensures NonSpace(TrimStart(s)) == NonSpace(s)
  {
    if s != [] && IsSpace(s[0]) {
      NonSpaceTrimStart(s[1..]);
    }
  }

  lemma {:induction false} NonSpaceTrimEnd(s: string)
    ensures NonSpace(TrimEnd(s)) == NonSpace(s)
  {
    var r := TrimEnd(s);
    assert s == r + s[|r|..];
    NonSpaceConcat(r, s[|r|..]);
    NonSpaceAllSpace(s[|r|..]);
  }

  /** Trimming removes only white space. */
  lemma {:induction false} NonSpaceTrim(s: string)
    ensures NonSpace(Trim(s)) == NonSpace(s)
  {
    NonSpaceTrimStart(s);
    NonSpaceTrimEnd(TrimStart(s));
  }

  /** Collapsing replaces white space by blanks and nothing else. */
  lemma {:induction false} NonSpaceCollapse(s: string)
    ensures NonSpace(CollapseSpaces(s)) == NonSpace(s)
    decreases |s|
  {
    if s == [] {
    } else if IsSpace(s[0]) {
      var t := TrimStart(s[1..]);
      NonSpaceCollapse(t);
      NonSpaceTrimStart(s[1..]);
      assert ([' '] + CollapseSpaces(t))[1..] == CollapseSpaces(t);
    } else {
      NonSpaceCollapse(s[1..]);
      assert ([s[0]] + CollapseSpaces(s[1..]))[1..] == CollapseSpaces(s[1..]);
    }
  }

  /** `s.replace(/\s+/g, " ").trim()`: no white space at either end, single blanks
      between words, and the same non-blank characters in the same order; that is,
      the words of `s` joined by single blanks. */
  lemma {:induction false} TrimCollapsed(s: string)
    ensures var r := Trim(CollapseSpaces(s));
      && (r == [] || (!IsSpace(r[0]) && !IsSpace(r[|r| - 1])))
      && SingleSpaced(r)
      && NonSpace(r) == NonSpace(s)
    ensures Trim(CollapseSpaces(s)) == JoinBlank(Words(s))
  {
    var c := CollapseSpaces(s);
    NonSpaceCollapse(s);
    NonSpaceTrim(c);
    TrimSingleSpaced(c);
    assert Trim(c) == JoinBlank(Words(s)) by {
      WordsCollapse(s);
      WordsTrim(c);
      CleanIsJoined(Trim(c));
    }
  }

  lemma {:induction false} TrimSingleSpaced(c: string)
    requires SingleSpaced(c)
    ensures SingleSpaced(Trim(c))
  {
    var t := TrimStart(c);
    SingleSpacedSlice(c, |c| - |t|, |c|);
    var r := TrimEnd(t);
    SingleSpacedSlice(t, 0, |r|);
    assert r == t[0..|r|];
  }

  /** Length of the run of non-space characters at the start of `s`. */
  function WordLen(s: string): (n: nat)
    ensures n <= |s|
    ensures forall i :: 0 <= i < n ==> !IsSpace(s[i])
    ensures n < |s| ==> IsSpace(s[n])
  {
    if s == [] || IsSpace(s[0]) then 0 else 1 + WordLen(s[1..])
  }

  /** The words of `s`: its maximal runs of non-space characters, in order. */
  function Words(s: string): seq<string>
    decreases |s|
  {
    if s == [] then []
    else if IsSpace(s[0]) then Words(s[1..])
    else [s[..WordLen(s)]] + Words(s[WordLen(s)..])
  }

  /** Words joined by single blanks. */
  function JoinBlank(ws: seq<string>): string {
    if ws == [] then []
    else if |ws| == 1 then ws[0]
    else ws[0] + " " + JoinBlank(ws[1..])
  }

  lemma {:induction false} WordLenIs(s: string, n: nat)
    requires n <= |s|
    requires forall i :: 0 <= i < n ==> !IsSpace(s[i])
    requires n == |s| || IsSpace(s[n])
    ensures WordLen(s) == n
  {
    if n > 0 {
      WordLenIs(s[1..], n - 1);
    }
  }

  lemma {:induction false} WordsSpacePrefix(s: string, k: nat)
    requires k <= |s|
    requires forall i :: 0 <= i < k ==> IsSpace(s[i])
    ensures Words(s) == Words(s[k..])
  {
    if k > 0 {
      assert s[k..] == s[1..][k - 1..];
      WordsSpacePrefix(s[1..], k - 1);
    }
  }

  /** A word of length `n` at the front of `s` is the first of its words. */
  lemma {:induction false} WordsSplit(s: string, n: nat)
    requires 0 < n <= |s|
    requires forall i :: 0 <= i < n ==> !IsSpace(s[i])
    requires n == |s| || IsSpace(s[n])
    ensures Words(s) == [s[..n]] + Words(s[n..])
  {
    WordLenIs(s, n);
  }

  lemma {:induction false} CollapseWordPrefix(s: string, k: nat)
    requires k <= WordLen(s)
    ensures CollapseSpaces(s) == s[..k] + CollapseSpaces(s[k..])
  {
    if k > 0 {
      var t := s[1..];
      assert WordLen(s) == 1 + WordLen(t);
      CollapseWordPrefix(t, k - 1);
      assert CollapseSpaces(s) == [s[0]] + CollapseSpaces(t);
      HeadThenPrefix(s, k);
      ConcatAssoc([s[0]], t[..k - 1], CollapseSpaces(s[k..]));
    }
  }

  lemma {:induction false} CollapseSpaceStep(s: string)
    requires s != [] && IsSpace(s[0])
    ensures var t := TrimStart(s[1..]);
      Words(CollapseSpaces(s)) == Words(CollapseSpaces(t)) && Words(s) == Words(t)
  {
    var t := TrimStart(s[1..]);
    var c := CollapseSpaces(s);
    assert c == [' '] + CollapseSpaces(t);
    assert c[1..] == CollapseSpaces(t);
    WordsSpacePrefix(s[1..], |s[1..]| - |t|);
  }

  /** The first word of `s` holds no white space. */
  lemma {:induction false} FirstWordNonSpace(s: string)
    ensures var w := s[..WordLen(s)]; forall i :: 0 <= i < |w| ==> !IsSpace(w[i])
  {
    var w := s[..WordLen(s)];
    forall i | 0 <= i < |w| ensures !IsSpace(w[i]) {
      assert w[i] == s[i];
    }
  }

  /** A word followed by nothing or by white space is the first of the words. */
  lemma {:induction false} WordsConcat(w: string, t: string)
    requires w != [] && forall i :: 0 <= i < |w| ==> !IsSpace(w[i])
    requires t == [] || IsSpace(t[0])
    ensures Words(w + t) == [w] + Words(t)
  {
    ConcatParts(w, t);
    assert |w| == |w + t| || (w + t)[|w|] == t[0];
    WordsSplit(w + t, |w|);
  }

  lemma {:induction false} CollapseWordStep(s: string)
    requires s != [] && !IsSpace(s[0])
    ensures var n := WordLen(s);
      && Words(CollapseSpaces(s)) == [s[..n]] + Words(CollapseSpaces(s[n..]))
      && Words(s) == [s[..n]] + Words(s[n..])
  {
    var n := WordLen(s);
    var w, rest := s[..n], CollapseSpaces(s[n..]);
    assert n > 0 by {
      assert WordLen(s) == 1 + WordLen(s[1..]);
    }
    WordsSplit(s, n);
    assert CollapseSpaces(s) == w + rest by {
      CollapseWordPrefix(s, n);
    }
    assert rest == [] || IsSpace(rest[0]) by {
      if rest != [] {
        assert s[n..][0] == s[n];
      }
    }
    FirstWordNonSpace(s);
    WordsConcat(w, rest);
  }

  /** Collapsing keeps the words: only the white space between them changes. */
  lemma {:induction false} WordsCollapse(s: string)
    ensures Words(CollapseSpaces(s)) == Words(s)
    decreases |s|
  {
    if s == [] {
    } else if IsSpace(s[0]) {
      WordsCollapse(TrimStart(s[1..]));
      CollapseSpaceStep(s);
    } else {
      WordsCollapse(s[WordLen(s)..]);
      CollapseWordStep(s);
    }
  }

  lemma {:induction false} WordsTrailingSpace(r: string, sp: string)
    requires forall i :: 0 <= i < |sp| ==> IsSpace(sp[i])
    ensures Words(r + sp) == Words(r)
    decreases |r|
  {
    if r == [] {
      assert r + sp == sp;
      WordsSpacePrefix(sp, |sp|);
    } else if IsSpace(r[0]) {
      assert (r + sp)[1..] == r[1..] + sp;
      WordsTrailingSpace(r[1..], sp);
    } else {
      var n := WordLen(r);
      var s := r + sp;
      WordLenIs(s, n);
      assert s[..n] == r[..n];
      assert s[n..] == r[n..] + sp;
      WordsTrailingSpace(r[n..], sp);
    }
  }

  /** Trimming keeps the words. */
  lemma {:induction false} WordsTrim(s: string)
    ensures Words(Trim(s)) == Words(s)
  {
    var r, t := Trim(s), TrimStart(s);
    WordsSpacePrefix(s, |s| - |t|);
    var tail := t[|r|..];
    PrefixThenRest(r, t);
    forall i | 0 <= i < |tail| ensures IsSpace(tail[i]) {
      assert tail[i] == t[|r| + i];
    }
    WordsTrailingSpace(r, tail);
  }

  lemma {:induction false} JoinBlankCons(w: string, ws: seq<string>)
    requires ws != []
    ensures JoinBlank([w] + ws) == w + " " + JoinBlank(ws)
  {
    assert ([w] + ws)[1..] == ws;
  }

  /** After the first word of a clean, single-spaced string come one blank and a
      clean, single-spaced remainder. */
  lemma {:induction false} CleanRest(r: string, n: nat)
    requires r != [] && !IsSpace(r[0]) && !IsSpace(r[|r| - 1]) && SingleSpaced(r)
    requires n == WordLen(r) && n < |r|
    ensures n + 1 < |r|
    ensures var rest := r[n + 1..];
      && !IsSpace(rest[0]) && !IsSpace(rest[|rest| - 1]) && SingleSpaced(rest)
      && r == r[..n] + " " + rest
  {
    var rest := r[n + 1..];
    assert n + 1 < |r| && r[n] == ' ';
    assert !IsSpace(r[n + 1]) by {
      assert !(IsSpace(r[n]) && IsSpace(r[n + 1]));
    }
    SingleSpacedSlice(r, n + 1, |r|);
    assert rest[0] == r[n + 1] && rest[|rest| - 1] == r[|r| - 1];
    SplitAt(r, n);
    assert [r[n]] == " ";
  }

  /** A blank followed by text that starts with a word has that text's words, and at
      least one. */
  lemma {:induction false} WordsAfterBlank(t: string)
    requires |t| > 1 && IsSpace(t[0]) && !IsSpace(t[1])
    ensures Words(t) == Words(t[1..]) && Words(t[1..]) != []
  {
    var rest := t[1..];
    assert Words(rest) == [rest[..WordLen(rest)]] + Words(rest[WordLen(rest)..]);
  }

  /** A string with clean ends and single blanks is its words joined by blanks. */
  lemma {:induction false} CleanIsJoined(r: string)
    requires r == [] || (!IsSpace(r[0]) && !IsSpace(r[|r| - 1]))
    requires SingleSpaced(r)
    ensures r == JoinBlank(Words(r))
    decreases |r|
  {
    if r != [] {
      var n := WordLen(r);
      assert n > 0 by {
        assert WordLen(r) == 1 + WordLen(r[1..]);
      }
      WordsSplit(r, n);
      if n == |r| {
        assert r[..n] == r && r[n..] == [];
      } else {
        var rest := r[n + 1..];
        CleanRest(r, n);
        CleanIsJoined(rest);
        assert r[n..][1..] == rest && r[n..][0] == r[n] && r[n..][1] == rest[0];
        WordsAfterBlank(r[n..]);
        JoinBlankCons(r[..n], Words(rest));
      }
    }
  }
}
