/** The Mission Architect view's risk highlighter in app1.py: for each risk
    word in list order, `re.sub(f"({rw})", r"**\1**", highlighted,
    flags=re.IGNORECASE)` wraps every case-insensitive occurrence in `**`
    markers, keeping the casing found in the title. */
module Highlight {
  import opened TextUtil

  /** The risk words, in the order they are applied. */
  const RiskWords: seq<string> :=
    ["radiation", "immune", "bone", "muscle", "microgravity", "health", "stress"]

  /** The emphasis marker put on both sides of a match. */
  const Marker: string := "**"

  /** `s` begins with `w`, ignoring ASCII letter case. */
  predicate MatchesAt(s: string, w: string)
  {
    |w| <= |s| && Lower(s[..|w|]) == Lower(w)
  }

  /** `w` occurs somewhere in `s`, ignoring ASCII letter case. */
  predicate ContainsIgnoringCase(s: string, w: string)
  {
    exists i: nat :: i <= |s| && MatchesAt(s[i..], w)
  }

  /** The highlighter's notion of an occurrence is the keyword filter's:
      `w` occurs in `s` ignoring case exactly when the lowercased `w` is a
      substring of the lowercased `s`. */
  lemma {:induction false} ContainsIgnoringCaseIff(s: string, w: string)
    ensures ContainsIgnoringCase(s, w) <==> Contains(Lower(s), Lower(w))
  {
    if ContainsIgnoringCase(s, w) {
      var i: nat :| i <= |s| && MatchesAt(s[i..], w);
      assert s[i..][..|w|] == s[i..i + |w|];
      LowerSlice(s, i, i + |w|);
      assert OccursAt(Lower(s), Lower(w), i);
    }
    if Contains(Lower(s), Lower(w)) {
      var i: nat :| i <= |Lower(s)| && OccursAt(Lower(s), Lower(w), i);
      assert s[i..][..|w|] == s[i..i + |w|];
      LowerSlice(s, i, i + |w|);
      assert MatchesAt(s[i..], w);
    }
  }

  /** One `re.sub` call: scanning left to right, each match of `w` is replaced
      by itself between markers and the scan resumes after it; any other
      character is copied. */
  function Wrap(s: string, w: string): (r: string)
    requires |w| > 0
    ensures |r| >= |s|
    ensures r == [] <==> s == []
    decreases |s|
  {
    if s == [] then []
    else if MatchesAt(s, w) then Marker + s[..|w|] + Marker + Wrap(s[|w|..], w)
    else [s[0]] + Wrap(s[1..], w)
  }

  /** The loop over the risk words: `words` applied one after the other. The
      result only gains `*` characters and is never shorter. */
  function HighlightWith(s: string, words: seq<string>): (r: string)
    requires forall i :: 0 <= i < |words| ==> |words[i]| > 0
    ensures |r| >= |s|
  {
    if words == [] then s
    else Wrap(HighlightWith(s, words[..|words| - 1]), words[|words| - 1])
  }

  /** The highlighted form of a title: all the risk words applied in order.
      Deleting every `*` from it gives what deleting every `*` from the title
      gives. */
  function HighlightRisk(title: string): (highlighted: string)
    ensures Strip(highlighted) == Strip(title)
  {
    HighlightStripAll(title, RiskWords);
    HighlightWith(title, RiskWords)
  }

  /** Undoing the seven substitutions, last word first, gives the title back
      exactly, whatever it holds, markers of its own included. */
  lemma HighlightRiskInverse(title: string)
    ensures UnwrapAll(HighlightRisk(title), RiskWords) == title
  {
    RiskWordsPlain();
    UnwrapHighlight(title, RiskWords);
  }

  /** No character of `w` is `*`. */
  predicate StarFree(w: string)
  {
    forall j :: 0 <= j < |w| ==> w[j] != '*'
  }

  /** Every risk word is a non-empty run of lowercase letters, so none holds
      a `*`. */
  lemma RiskWordsPlain()
    ensures forall i :: 0 <= i < |RiskWords| ==> |RiskWords[i]| > 0 && StarFree(RiskWords[i])
  {
  }

  /** The title with `highlighted` rebound once per risk word. */
  method HighlightTitle(title: string) returns (highlighted: string)
    ensures highlighted == HighlightRisk(title)
  {
    highlighted := title;
    for i := 0 to |RiskWords|
      invariant highlighted == HighlightWith(title, RiskWords[..i])
    {
      assert RiskWords[..i + 1][..i] == RiskWords[..i];
      highlighted := Wrap(highlighted, RiskWords[i]);
    }
    assert RiskWords[..|RiskWords|] == RiskWords;
  }

  /** The text with every `*` deleted. */
  function Strip(s: string): string
  {
    if s == [] then []
    else (if s[0] == '*' then [] else [s[0]]) + Strip(s[1..])
  }

  lemma {:induction false} StripConcat(a: string, b: string)
    ensures Strip(a + b) == Strip(a) + Strip(b)
    decreases |a|
  {
    if a == [] {
      assert a + b == b;
    } else {
      assert (a + b)[1..] == a[1..] + b;
      StripConcat(a[1..], b);
    }
  }

  lemma {:induction false} StripNoStar(s: string)
    requires StarFree(s)
    ensures Strip(s) == s
    decreases |s|
  {
    if s != [] {
      StripNoStar(s[1..]);
    }
  }

  lemma {:induction false} StripMarker()
    ensures Strip(Marker) == []
  {
    assert Marker == ['*'] + ['*'];
    StripConcat(['*'], ['*']);
  }

  /** Deleting the `*` characters from a wrapped match leaves the match. */
  lemma {:induction false} StripWrapped(m: string, r: string)
    ensures Strip(Marker + m + Marker + r) == Strip(m) + Strip(r)
  {
    StripMarker();
    StripConcat(Marker + m + Marker, r);
    StripConcat(Marker + m, Marker);
    StripConcat(Marker, m);
  }

  /** `Wrap` only inserts markers: deleting every `*` from its result gives
      what deleting every `*` from its input gives. */
  lemma {:induction false} WrapStrip(s: string, w: string)
    requires |w| > 0
    ensures Strip(Wrap(s, w)) == Strip(s)
    decreases |s|
  {
    if s != [] {
      if MatchesAt(s, w) {
        var m, rest := s[..|w|], s[|w|..];
        calc {
          Strip(Wrap(s, w));
          Strip(Marker + m + Marker + Wrap(rest, w));
          { StripWrapped(m, Wrap(rest, w)); }
          Strip(m) + Strip(Wrap(rest, w));
          { WrapStrip(rest, w); }
          Strip(m) + Strip(rest);
          { StripConcat(m, rest); assert m + rest == s; }
          Strip(s);
        }
      } else {
        calc {
          Strip(Wrap(s, w));
          Strip([s[0]] + Wrap(s[1..], w));
          { StripConcat([s[0]], Wrap(s[1..], w)); }
          Strip([s[0]]) + Strip(Wrap(s[1..], w));
          { WrapStrip(s[1..], w); }
          Strip([s[0]]) + Strip(s[1..]);
          { StripConcat([s[0]], s[1..]); assert [s[0]] + s[1..] == s; }
          Strip(s);
        }
      }
    }
  }

  /** The loop only inserts markers: deleting every `*` from a highlighted
      title gives what deleting every `*` from the title gives. */
  lemma {:induction false} HighlightStripAll(s: string, words: seq<string>)
    requires forall i :: 0 <= i < |words| ==> |words[i]| > 0
    ensures Strip(HighlightWith(s, words)) == Strip(s)
    decreases |words|
  {
    if words != [] {
      HighlightStripAll(s, words[..|words| - 1]);
      WrapStrip(HighlightWith(s, words[..|words| - 1]), words[|words| - 1]);
    }
  }

  /** Deleting the markers from a highlighted title gives the title back,
      letter case included, when the title has no `*` of its own. */
  lemma {:induction false} HighlightStrip(s: string, words: seq<string>)
    requires forall i :: 0 <= i < |words| ==> |words[i]| > 0
    requires StarFree(s)
    ensures Strip(HighlightWith(s, words)) == s
  {
    HighlightStripAll(s, words);
    StripNoStar(s);
  }

  /** Text in which no match starts is copied as it is. */
  lemma {:induction false} WrapPlainPrefix(a: string, b: string, w: string)
    requires |w| > 0
    requires forall i :: 0 <= i < |a| ==> !MatchesAt((a + b)[i..], w)
    ensures Wrap(a + b, w) == a + Wrap(b, w)
    decreases |a|
  {
    if a != [] {
      assert (a + b)[0..] == a + b;
      assert (a + b)[1..] == a[1..] + b;
      forall i | 0 <= i < |a[1..]| ensures !MatchesAt((a[1..] + b)[i..], w) {
        assert (a[1..] + b)[i..] == (a + b)[i + 1..];
      }
      WrapPlainPrefix(a[1..], b, w);
    } else {
      assert a + b == b;
    }
  }

  /** A match at the very start is wrapped and the scan resumes after it. */
  lemma {:induction false} WrapAtMatch(m: string, b: string, w: string)
    requires |w| > 0
    requires |m| == |w| && Lower(m) == Lower(w)
    ensures Wrap(m + b, w) == Marker + m + Marker + Wrap(b, w)
  {
    assert (m + b)[..|w|] == m;
    assert (m + b)[|w|..] == b;
    assert MatchesAt(m + b, w);
  }

  /** The leftmost match `m` is wrapped, with its own casing, and the scan
      resumes right after it. */
  lemma {:induction false} WrapLeftmost(a: string, m: string, b: string, w: string)
    requires |w| > 0
    requires |m| == |w| && Lower(m) == Lower(w)
    requires forall i :: 0 <= i < |a| ==> !MatchesAt((a + m + b)[i..], w)
    ensures Wrap(a + m + b, w) == a + Marker + m + Marker + Wrap(b, w)
  {
    var tail := m + b;
    assert Wrap(a + m + b, w) == a + Wrap(tail, w) by {
      assert a + m + b == a + tail;
      WrapPlainPrefix(a, tail, w);
    }
    assert Wrap(tail, w) == Marker + m + Marker + Wrap(b, w) by {
      WrapAtMatch(m, b, w);
    }
    assert a + (Marker + m + Marker + Wrap(b, w)) == a + Marker + m + Marker + Wrap(b, w);
  }

  /** `r` starts with a wrapped match of `w`: a marker, text equal to `w` up
      to letter case, and a marker. */
  predicate WrappedAt(r: string, w: string)
  {
    && |r| >= |w| + 4
    && r[..2] == Marker
    && MatchesAt(r[2..], w)
    && r[|w| + 2..|w| + 4] == Marker
  }

  /** Undoes one `re.sub`: scanning left to right, each wrapped match loses
      its two markers and any other character is copied. */
  function Unwrap(r: string, w: string): string
    requires |w| > 0
    decreases |r|
  {
    if r == [] then []
    else if WrappedAt(r, w) then r[2..|w| + 2] + Unwrap(r[|w| + 4..], w)
    else [r[0]] + Unwrap(r[1..], w)
  }

  /** Undoes the risk-word loop: `Unwrap` for each word, last word first. */
  function UnwrapAll(r: string, words: seq<string>): string
    requires forall i :: 0 <= i < |words| ==> |words[i]| > 0
    decreases |words|
  {
    if words == [] then r
    else UnwrapAll(Unwrap(r, words[|words| - 1]), words[..|words| - 1])
  }

  /** A `*` inside the window of a word free of `*` rules out a match. */
  lemma {:induction false} StarBlocksMatch(x: string, w: string, j: nat)
    requires StarFree(w)
    requires j < |w| && j < |x| && x[j] == '*'
    ensures !MatchesAt(x, w)
  {
    if |w| <= |x| {
      assert Lower(x[..|w|])[j] == '*';
    }
  }

  /** Up to its first `*`, the output of `Wrap` is its input copied, and no
      match starts at the front. */
  lemma {:induction false} WrapCopiedPrefix(t: string, w: string, k: nat)
    requires |w| > 0 && StarFree(w)
    requires k <= |Wrap(t, w)|
    requires forall j :: 0 <= j < k ==> Wrap(t, w)[j] != '*'
    ensures k <= |t| && Wrap(t, w)[..k] == t[..k]
    ensures k > 0 ==> !MatchesAt(t, w)
    decreases k
  {
    if k > 0 {
      var r := Wrap(t, w);
      assert r[0] != '*';
      assert r == [t[0]] + Wrap(t[1..], w);
      forall j | 0 <= j < k - 1 ensures Wrap(t[1..], w)[j] != '*' {
        assert Wrap(t[1..], w)[j] == r[j + 1];
      }
      WrapCopiedPrefix(t[1..], w, k - 1);
      assert r[..k] == [t[0]] + Wrap(t[1..], w)[..k - 1];
      assert t[..k] == [t[0]] + t[1..][..k - 1];
    }
  }

  /** The output of `Wrap` never begins with a match of a word free of `*`:
      such a match would have been copied, and so wrapped. */
  lemma {:induction false} WrapNoMatchAtFront(u: string, w: string)
    requires |w| > 0 && StarFree(w)
    ensures !MatchesAt(Wrap(u, w), w)
  {
    var r := Wrap(u, w);
    if MatchesAt(r, w) {
      forall j | 0 <= j < |w| ensures r[j] != '*' {
        if r[j] == '*' {
          StarBlocksMatch(r, w, j);
        }
      }
      WrapCopiedPrefix(u, w, |w|);
    }
  }

  /** Where `Wrap` copies a character, its output does not begin with a
      wrapped match. */
  lemma {:induction false} NotWrappedAfterCopy(s: string, w: string)
    requires |w| > 0 && StarFree(w)
    requires s != [] && !MatchesAt(s, w)
    ensures !WrappedAt(Wrap(s, w), w)
  {
    var r := Wrap(s, w);
    var t := s[1..];
    assert r == [s[0]] + Wrap(t, w);
    if |r| >= |w| + 4 {
      assert !MatchesAt(r[2..], w) by {
        if MatchesAt(t, w) {
          assert r[2..][0] == '*';
          StarBlocksMatch(r[2..], w, 0);
        } else {
          assert r[2..] == Wrap(t[1..], w);
          WrapNoMatchAtFront(t[1..], w);
        }
      }
    }
  }

  /** `Unwrap` inverts one `re.sub` for a word free of `*`, on every text,
      including texts that already hold markers. */
  lemma {:induction false} UnwrapWrap(s: string, w: string)
    requires |w| > 0 && StarFree(w)
    ensures Unwrap(Wrap(s, w), w) == s
    decreases |s|
  {
    if s != [] {
      if MatchesAt(s, w) {
        calc {
          Unwrap(Wrap(s, w), w);
          { UnwrapWrapped(s, w); }
          s[..|w|] + Unwrap(Wrap(s[|w|..], w), w);
          { UnwrapWrap(s[|w|..], w); }
          s[..|w|] + s[|w|..];
          s;
        }
      } else {
        calc {
          Unwrap(Wrap(s, w), w);
          { UnwrapCopied(s, w); }
          [s[0]] + Unwrap(Wrap(s[1..], w), w);
          { UnwrapWrap(s[1..], w); }
          [s[0]] + s[1..];
          s;
        }
      }
    }
  }

  /** One step of `UnwrapWrap` at a match: the wrapped match is unwrapped
      and the rest of the output is undone in turn. */
  lemma {:induction false} UnwrapWrapped(s: string, w: string)
    requires |w| > 0 && MatchesAt(s, w)
    ensures Unwrap(Wrap(s, w), w) == s[..|w|] + Unwrap(Wrap(s[|w|..], w), w)
  {
    var r := Wrap(s, w);
    var m, rest := s[..|w|], s[|w|..];
    assert r == Marker + m + Marker + Wrap(rest, w);
    assert r[2..][..|w|] == m;
    assert WrappedAt(r, w);
    assert r[2..|w| + 2] == m;
    assert r[|w| + 4..] == Wrap(rest, w);
  }

  /** One step of `UnwrapWrap` where a character is copied. */
  lemma {:induction false} UnwrapCopied(s: string, w: string)
    requires |w| > 0 && StarFree(w)
    requires s != [] && !MatchesAt(s, w)
    ensures Unwrap(Wrap(s, w), w) == [s[0]] + Unwrap(Wrap(s[1..], w), w)
  {
    NotWrappedAfterCopy(s, w);
    assert Wrap(s, w)[1..] == Wrap(s[1..], w);
  }

  /** Undoing the substitutions in reverse order gives the title back. */
  lemma {:induction false} UnwrapHighlight(s: string, words: seq<string>)
    requires forall i :: 0 <= i < |words| ==> |words[i]| > 0 && StarFree(words[i])
    ensures UnwrapAll(HighlightWith(s, words), words) == s
    decreases |words|
  {
    if words != [] {
      var w := words[|words| - 1];
      var prev := HighlightWith(s, words[..|words| - 1]);
      UnwrapWrap(prev, w);
      UnwrapHighlight(s, words[..|words| - 1]);
    }
  }

  /** A later `re.sub` leaves an earlier wrapped match `**m**` intact when
      its own word is free of `*` and does not occur inside `m`: no match can
      start on a marker, nor inside `m` and run into the closing marker. */
  lemma {:induction false} WrapKeepsWrapped(m: string, t: string, w: string)
    requires |w| > 0 && StarFree(w)
    requires !ContainsIgnoringCase(m, w)
    ensures Wrap(Marker + m + Marker + t, w) == Marker + m + Marker + Wrap(t, w)
  {
    var a := Marker + m + Marker;
    forall i | 0 <= i < |a| ensures !MatchesAt((a + t)[i..], w) {
      var x := (a + t)[i..];
      if i < 2 || i >= |m| + 2 {
        assert x[0] == '*';
        StarBlocksMatch(x, w, 0);
      } else if i - 2 + |w| <= |m| {
        assert x[..|w|] == m[i - 2..][..|w|];
        assert !MatchesAt(m[i - 2..], w);
      } else {
        assert x[|m| + 2 - i] == '*';
        StarBlocksMatch(x, w, |m| + 2 - i);
      }
    }
    assert Marker + m + Marker + t == a + t;
    WrapPlainPrefix(a, t, w);
  }

  /** No risk word occurs, in any letter case, inside a match of a risk word
      applied before it. */
  lemma {:induction false} RiskWordsApart(i: nat, j: nat, m: string)
    requires i < j < |RiskWords|
    requires |m| == |RiskWords[i]| && Lower(m) == Lower(RiskWords[i])
    ensures !ContainsIgnoringCase(m, RiskWords[j])
  {
    var w := RiskWords[j];
    forall k: nat | k <= |m| ensures !MatchesAt(m[k..], w) {
      if k + |w| <= |m| {
        assert m[k..][..|w|] == m[k..k + |w|];
        LowerSlice(m, k, k + |w|);
        LowerSlice(RiskWords[i], k, k + |w|);
        RiskWindow(i, j, k);
      }
    }
  }

  /** A window of an earlier risk word never spells a later one: the first
      two letters already differ. */
  lemma {:induction false} RiskWindow(i: nat, j: nat, k: nat)
    requires i < j < |RiskWords|
    requires k + |RiskWords[j]| <= |RiskWords[i]|
    ensures Lower(RiskWords[i][k..k + |RiskWords[j]|]) != Lower(RiskWords[j])
  {
    var a, w := RiskWords[i], RiskWords[j];
    var x := a[k..k + |w|];
    assert Lower(x)[0] == LowerChar(a[k]) && Lower(x)[1] == LowerChar(a[k + 1]);
    assert Lower(w)[0] == LowerChar(w[0]) && Lower(w)[1] == LowerChar(w[1]);
    if i == 0 && j == 1 {
      assert k <= 3;
      if k == 3 {
        assert a[k + 1] == 'a';
      } else {
        assert a[k] != 'i';
      }
    }
  }

  /** The seven-word loop wraps no match twice: a match `m` of one risk word,
      once wrapped, is left intact by every later risk word. */
  lemma {:induction false} RiskWrapKept(i: nat, j: nat, m: string, t: string)
    requires i < j < |RiskWords|
    requires |m| == |RiskWords[i]| && Lower(m) == Lower(RiskWords[i])
    ensures Wrap(Marker + m + Marker + t, RiskWords[j]) == Marker + m + Marker + Wrap(t, RiskWords[j])
  {
    RiskWordsPlain();
    RiskWordsApart(i, j, m);
    WrapKeepsWrapped(m, t, RiskWords[j]);
  }

  /** `Wrap` never shortens the text, and lengthens it by at least the two
      markers when a match exists. */
  lemma {:induction false} WrapLength(s: string, w: string)
    requires |w| > 0
    ensures |Wrap(s, w)| >= |s|
    ensures ContainsIgnoringCase(s, w) ==> |Wrap(s, w)| >= |s| + 2 * |Marker|
    decreases |s|
  {
    if s != [] {
      if MatchesAt(s, w) {
        WrapLength(s[|w|..], w);
      } else {
        WrapLength(s[1..], w);
        if ContainsIgnoringCase(s, w) {
          var i: nat :| i <= |s| && MatchesAt(s[i..], w);
          assert i != 0;
          assert s[1..][i - 1..] == s[i..];
        }
      }
    }
  }

  /** A text without a match comes back unchanged. */
  lemma {:induction false} WrapNoMatch(s: string, w: string)
    requires |w| > 0
    requires !ContainsIgnoringCase(s, w)
    ensures Wrap(s, w) == s
    decreases |s|
  {
    if s != [] {
      assert s[0..] == s;
      assert !ContainsIgnoringCase(s[1..], w) by {
        forall i: nat | i <= |s[1..]| ensures !MatchesAt(s[1..][i..], w) {
          assert s[1..][i..] == s[i + 1..];
        }
      }
      WrapNoMatch(s[1..], w);
    }
  }

  /** A `re.sub` call leaves the text unchanged exactly when the word does
      not occur in it. */
  lemma {:induction false} WrapUnchangedIff(s: string, w: string)
    requires |w| > 0
    ensures Wrap(s, w) == s <==> !ContainsIgnoringCase(s, w)
  {
    WrapLength(s, w);
    if !ContainsIgnoringCase(s, w) {
      WrapNoMatch(s, w);
    }
  }

  /** A title holding none of the risk words, in any letter case, comes back
      unchanged. */
  lemma {:induction false} HighlightNoRisk(s: string, words: seq<string>)
    requires forall i :: 0 <= i < |words| ==> |words[i]| > 0
    requires forall i :: 0 <= i < |words| ==> !ContainsIgnoringCase(s, words[i])
    ensures HighlightWith(s, words) == s
    decreases |words|
  {
    if words != [] {
      HighlightNoRisk(s, words[..|words| - 1]);
      WrapNoMatch(s, words[|words| - 1]);
    }
  }
}
