/** The Manager view's word extraction in app1.py: all result titles joined
    with spaces and lowercased, `re.findall(r'\b[a-z]+\b', text)`, then the
    stopwords dropped. */
module Tokenize {
  import opened TextUtil
  import opened SeqUtil

  /** Length of the leading run of `\w` characters. */
  function WordRunEnd(s: string): (k: nat)
    ensures k <= |s|
    ensures forall j :: 0 <= j < k ==> IsWordChar(s[j])
    ensures k < |s| ==> !IsWordChar(s[k])
  {
    if s == [] || !IsWordChar(s[0]) then 0 else 1 + WordRunEnd(s[1..])
  }

  /** Every character is a lowercase ASCII letter: the body `[a-z]+` may match. */
  predicate AllLower(w: string)
  {
    forall j :: 0 <= j < |w| ==> IsAsciiLower(w[j])
  }

  /** A token the pattern can return: a non-empty run of `a`-`z`. */
  predicate IsToken(w: string)
  {
    |w| > 0 && AllLower(w)
  }

  /** `re.findall(r'\b[a-z]+\b', s)`. A match must start and end at a word
      boundary and contain only `a`-`z`, so it is exactly a maximal run of
      `\w` characters made of lowercase letters only; a run that also holds a
      digit, an underscore or a capital yields nothing. The scan walks the text
      run by run, left to right. */
  function Tokens(s: string): (ts: seq<string>)
    ensures forall i :: 0 <= i < |ts| ==> IsToken(ts[i])
    decreases |s|
  {
    if s == [] then []
    else if !IsWordChar(s[0]) then Tokens(s[1..])
    else
      var k := WordRunEnd(s);
      (if AllLower(s[..k]) then [s[..k]] else []) + Tokens(s[k..])
  }

  /** A text made of one run of `\w` characters gives the whole run as its
      only token when it is all lowercase letters, and nothing otherwise. */
  lemma TokensOfRun(s: string)
    requires |s| > 0
    requires forall j :: 0 <= j < |s| ==> IsWordChar(s[j])
    ensures Tokens(s) == if AllLower(s) then [s] else []
  {
    WordRunEndAll(s);
    assert s[..|s|] == s;
  }

  lemma {:induction false} WordRunEndAll(s: string)
    requires forall j :: 0 <= j < |s| ==> IsWordChar(s[j])
    ensures WordRunEnd(s) == |s|
    decreases |s|
  {
    if s != [] {
      WordRunEndAll(s[1..]);
    }
  }

  /** A run of `\w` characters stops before a non-word character. */
  lemma {:induction false} WordRunEndBefore(a: string, c: char, b: string)
    requires !IsWordChar(c)
    ensures WordRunEnd(a + [c] + b) == WordRunEnd(a)
    decreases |a|
  {
    if a != [] && IsWordChar(a[0]) {
      assert (a + [c] + b)[1..] == a[1..] + [c] + b;
      WordRunEndBefore(a[1..], c, b);
    }
  }

  /** A non-word character is a hard boundary: no token spans it, and the
      tokens on each side come out in text order. */
  lemma {:induction false} TokensSplit(a: string, c: char, b: string)
    requires !IsWordChar(c)
    ensures Tokens(a + [c] + b) == Tokens(a) + Tokens(b)
    decreases |a|
  {
    var s := a + [c] + b;
    if a == [] {
      assert s[1..] == b;
    } else if !IsWordChar(a[0]) {
      assert s[1..] == a[1..] + [c] + b;
      TokensSplit(a[1..], c, b);
    } else {
      var k := WordRunEnd(a);
      WordRunEndBefore(a, c, b);
      assert s[..k] == a[..k];
      assert s[k..] == a[k..] + [c] + b;
      TokensSplit(a[k..], c, b);
    }
  }

  /** The tokens of the lowercased, space-joined titles are the tokens of
      each lowercased title, in order: no token spans two titles. */
  lemma {:induction false} TokensPerTitle(titles: seq<string>)
    ensures Tokens(Lower(Join(titles, " "))) ==
            Flatten(seq(|titles|, i requires 0 <= i < |titles| => Tokens(Lower(titles[i]))))
    decreases |titles|
  {
    var per := seq(|titles|, i requires 0 <= i < |titles| => Tokens(Lower(titles[i])));
    if |titles| == 0 {
    } else if |titles| == 1 {
      assert Flatten(per) == per[0] + Flatten(per[1..]);
      assert per[1..] == [];
    } else {
      var rest := Join(titles[1..], " ");
      LowerConcat(titles[0] + " ", rest);
      LowerConcat(titles[0], " ");
      assert Lower(" ") == [' '];
      TokensSplit(Lower(titles[0]), ' ', Lower(rest));
      TokensPerTitle(titles[1..]);
      assert per[1..] == seq(|titles[1..]|, i requires 0 <= i < |titles[1..]| => Tokens(Lower(titles[1..][i])));
    }
  }

  /** A letter run touching a digit or an underscore gives no token at all:
      after lowercasing, the whole `\w` run is not made of letters only. */
  lemma NoTokenNextToDigit(s: string, j: nat)
    requires |s| > 0
    requires forall i :: 0 <= i < |s| ==> IsWordChar(s[i])
    requires j < |s| && (IsAsciiDigit(s[j]) || s[j] == '_')
    ensures Tokens(Lower(s)) == []
  {
    TokensOfRun(Lower(s));
    assert !IsAsciiLower(Lower(s)[j]);
  }

  /** The 20-word stopword set of app1.py. */
  const Stopwords: set<string> :=
    { "of", "the", "and", "in", "for", "to", "on", "a", "an", "with", "by", "at",
      "from", "into", "during", "after", "effect", "effects", "study", "studies" }

  function NotStopword(): string -> bool
  {
    (w: string) => w !in Stopwords
  }

  /** `[w for w in words if w not in stopwords]`: no stopword survives, every
      other token keeps its multiplicity, and the order is kept. */
  function FilterStopwords(tokens: seq<string>): (kept: seq<string>)
    ensures forall i :: 0 <= i < |kept| ==> kept[i] !in Stopwords
    ensures forall w :: w !in Stopwords ==> multiset(kept)[w] == multiset(tokens)[w]
    ensures IsSubseq(kept, tokens)
  {
    var kept := Keep(tokens, NotStopword());
    assert forall i :: 0 <= i < |kept| ==> kept[i] in kept && NotStopword()(kept[i]);
    kept
  }

  /** The token list the Manager view counts, from the result titles: runs of
      `a`-`z`, none of them a stopword, each as often as the pattern finds it. */
  function ManagerTokens(titles: seq<string>): (words: seq<string>)
    ensures forall i :: 0 <= i < |words| ==> IsToken(words[i]) && words[i] !in Stopwords
    ensures forall w :: w !in Stopwords ==>
              multiset(words)[w] == multiset(Tokens(Lower(Join(titles, " "))))[w]
    ensures IsSubseq(words, Tokens(Lower(Join(titles, " "))))
  {
    var tokens := Tokens(Lower(Join(titles, " ")));
    var words := FilterStopwords(tokens);
    assert forall i :: 0 <= i < |words| ==> IsToken(words[i]) by {
      forall i | 0 <= i < |words| ensures IsToken(words[i]) {
        assert words[i] in multiset(words);
        assert words[i] in multiset(tokens);
      }
    }
    words
  }
}
