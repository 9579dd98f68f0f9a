/** The summariser `make_summary` of app1.py: a title of at most 15
    whitespace-separated words is kept as it is, a longer one is cut to its
    first 12 words followed by " ...". */
module Summary {
  import opened TextUtil

  /** Word limit up to which a title is shown untouched. */
  const MaxWords: nat := 15
  /** Number of words kept when a title is cut. */
  const KeptWords: nat := 12
  /** Suffix marking a cut title. */
  const Ellipsis: string := " ..."

  /** A field of `str.split()`: non-empty, free of whitespace. */
  predicate IsWord(w: string)
  {
    |w| > 0 && forall j :: 0 <= j < |w| ==> !IsSpace(w[j])
  }

  /** Length of the leading run of non-whitespace characters. */
  function WordEnd(s: string): (k: nat)
    ensures k <= |s|
    ensures forall j :: 0 <= j < k ==> !IsSpace(s[j])
    ensures k < |s| ==> IsSpace(s[k])
  {
    if s == [] || IsSpace(s[0]) then 0 else 1 + WordEnd(s[1..])
  }

  /** `text.split()`: the maximal runs of non-whitespace characters, in order. */
  function Words(s: string): (ws: seq<string>)
    ensures forall i :: 0 <= i < |ws| ==> IsWord(ws[i])
    decreases |s|
  {
    if s == [] then []
    else if IsSpace(s[0]) then Words(s[1..])
    else
      var k := WordEnd(s);
      [s[..k]] + Words(s[k..])
  }

  /** `make_summary(text)`: the words of the summary are all of the title's
      words when it has at most 15, otherwise its first 12 followed by the
      word "...". */
  function MakeSummary(text: string): (summary: string)
    ensures Words(summary) ==
            if |Words(text)| <= MaxWords then Words(text)
            else Words(text)[..KeptWords] + ["..."]
  {
    var words := Words(text);
    if |words| <= MaxWords then text
    else
      WordsOfCut(words[..KeptWords]);
      Join(words[..KeptWords], " ") + Ellipsis
  }

  /** The words of a cut title: the kept words, then "...". */
  lemma {:induction false} WordsOfCut(ws: seq<string>)
    requires forall i :: 0 <= i < |ws| ==> IsWord(ws[i])
    ensures Words(Join(ws, " ") + Ellipsis) == ws + ["..."]
  {
    calc {
      Words(Join(ws, " ") + Ellipsis);
      { WordsOfJoin(ws, Ellipsis); }
      ws + Words(Ellipsis);
      { WordsOfEllipsis(); }
      ws + ["..."];
    }
  }

  /** The suffix " ..." splits into the single word "...". */
  lemma {:induction false} WordsOfEllipsis()
    ensures Words(Ellipsis) == ["..."]
  {
    var dots := "...";
    assert IsWord(dots);
    assert Ellipsis[1..] == dots;
    WordsOfWordThen(dots, []);
    assert dots + [] == dots;
  }

  /** A word followed by nothing or by whitespace splits off as one field. */
  lemma {:induction false} WordEndOfWord(w: string, t: string)
    requires IsWord(w)
    requires t == [] || IsSpace(t[0])
    ensures WordEnd(w + t) == |w|
    decreases |w|
  {
    if |w| > 1 {
      assert (w + t)[1..] == w[1..] + t;
      WordEndOfWord(w[1..], t);
    } else {
      assert (w + t)[1..] == t;
    }
  }

  lemma {:induction false} WordsOfWordThen(w: string, t: string)
    requires IsWord(w)
    requires t == [] || IsSpace(t[0])
    ensures Words(w + t) == [w] + Words(t)
  {
    WordEndOfWord(w, t);
    assert (w + t)[..|w|] == w;
    assert (w + t)[|w|..] == t;
  }

  /** One step of `" ".join`: the first field, a space, then the rest. */
  lemma {:induction false} JoinSpaceThen(ws: seq<string>, t: string)
    requires |ws| > 1
    ensures Join(ws, " ") + t == ws[0] + (" " + (Join(ws[1..], " ") + t))
  {
    assert Join(ws, " ") == ws[0] + " " + Join(ws[1..], " ");
  }

  /** Round trip of `" ".join` and `split()`: joining fields with single
      spaces and splitting again gives the same fields back, whatever
      whitespace-led text follows. */
  lemma {:induction false} WordsOfJoin(ws: seq<string>, t: string)
    requires forall i :: 0 <= i < |ws| ==> IsWord(ws[i])
    requires t == [] || IsSpace(t[0])
    ensures Words(Join(ws, " ") + t) == ws + Words(t)
    decreases |ws|
  {
    if |ws| == 0 {
      assert Join(ws, " ") + t == t;
    } else if |ws| == 1 {
      assert Join(ws, " ") == ws[0] && ws == [ws[0]];
      WordsOfWordThen(ws[0], t);
    } else {
      var rest := ws[1..];
      assert forall i :: 0 <= i < |rest| ==> IsWord(rest[i]) by {
        forall i | 0 <= i < |rest| ensures IsWord(rest[i]) {
          assert rest[i] == ws[i + 1];
        }
      }
      calc {
        Words(Join(ws, " ") + t);
        { WordsOfJoinStep(ws, t); }
        [ws[0]] + Words(Join(rest, " ") + t);
        { WordsOfJoin(rest, t); }
        [ws[0]] + (rest + Words(t));
        { assert [ws[0]] + rest == ws; }
        ws + Words(t);
      }
    }
  }

  /** The inductive step of `WordsOfJoin`: the first field splits off and the
      rest of the join follows. */
  lemma {:induction false} WordsOfJoinStep(ws: seq<string>, t: string)
    requires |ws| > 1 && IsWord(ws[0])
    ensures Words(Join(ws, " ") + t) == [ws[0]] + Words(Join(ws[1..], " ") + t)
  {
    var tail := Join(ws[1..], " ") + t;
    JoinSpaceThen(ws, t);
    WordsOfWordThen(ws[0], " " + tail);
    assert (" " + tail)[1..] == tail;
  }

  /** A title with at most 15 words is returned unchanged; a longer one becomes
      its first 12 words separated by single spaces, then " ...", which has
      13 words. */
  lemma SummaryShape(text: string)
    ensures |Words(text)| <= MaxWords ==> MakeSummary(text) == text
    ensures |Words(text)| > MaxWords ==>
              MakeSummary(text) == Join(Words(text)[..KeptWords], " ") + Ellipsis &&
              |Words(MakeSummary(text))| == KeptWords + 1
  {
  }

  /** A summary never has more than 15 words... */
  lemma SummaryIsShort(text: string)
    ensures |Words(MakeSummary(text))| <= MaxWords
  {
  }

  /** ...so summarising a summary changes nothing. */
  lemma SummaryIdempotent(text: string)
    ensures MakeSummary(MakeSummary(text)) == MakeSummary(text)
  {
    SummaryIsShort(text);
  }
}
