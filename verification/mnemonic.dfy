/**
 * The mnemonic check of the open-wallet form: the input is trimmed, every
 * whitespace run becomes one space, the result is split on spaces, and the
 * phrase is valid when exactly twelve words remain.
 */
module Mnemonic {
  import opened Strings
  import opened Decimal

  predicate NoWhitespace(w: string) {
    forall i :: 0 <= i < |w| ==> !IsWhitespace(w[i])
  }

  predicate AllWhitespace(w: string) {
    forall i :: 0 <= i < |w| ==> IsWhitespace(w[i])
  }

  /** What the form accepts as a word: non-empty, without whitespace. */
  predicate IsWord(w: string) {
    w != [] && NoWhitespace(w)
  }

  predicate AllWords(ws: seq<string>) {
    forall i :: 0 <= i < |ws| ==> IsWord(ws[i])
  }

  // ---------------------------------------------------------------------------
  // The string operations of the original

  /** Leading whitespace removed: what `trim()` does at the start. */
  function TrimStart(s: string): (r: string)
    ensures |r| <= |s|
    ensures r == [] || !IsWhitespace(r[0])
    ensures s != [] && IsWhitespace(s[0]) ==> |r| < |s|
  {
    if s != [] && IsWhitespace(s[0]) then TrimStart(s[1..]) else s
  }

  /** What `TrimStart` removes is whitespace, and what it keeps is a suffix. */
  lemma {:induction false} TrimStartSplits(s: string)
    ensures var r := TrimStart(s);
            s == s[..|s| - |r|] + r && AllWhitespace(s[..|s| - |r|])
  {
    if s != [] && IsWhitespace(s[0]) {
      TrimStartSplits(s[1..]);
      var r := TrimStart(s);
      assert s[..|s| - |r|] == [s[0]] + s[1..][..|s| - 1 - |r|];
    }
  }

  /** Trailing whitespace removed: what `trim()` does at the end. */
  function TrimEnd(s: string): (r: string)
    ensures |r| <= |s| && r == s[..|r|]
    ensures AllWhitespace(s[|r|..])
    ensures r == [] || !IsWhitespace(r[|r| - 1])
  {
    if s != [] && IsWhitespace(s[|s| - 1]) then
      var r := TrimEnd(s[..|s| - 1]);
      assert s[|r|..] == s[..|s| - 1][|r|..] + [s[|s| - 1]];
      r
    else
      s
  }

  /** `trim()`. */
  function Trim(s: string): (r: string)
    ensures r == [] || (!IsWhitespace(r[0]) && !IsWhitespace(r[|r| - 1]))
  {
    TrimEnd(TrimStart(s))
  }

  /** `replace(/\s+/g, ' ')`: each maximal whitespace run becomes one space. */
  function Collapse(s: string): (r: string)
    ensures |r| <= |s| && (r == [] <==> s == [])
    ensures r != [] ==> (r[0] == ' ' <==> IsWhitespace(s[0]))
    ensures forall i :: 0 <= i < |r| && IsWhitespace(r[i]) ==> r[i] == ' '
    ensures forall i :: 0 <= i < |r| - 1 ==> r[i] != ' ' || r[i + 1] != ' '
    decreases |s|
  {
    if s == [] then []
    else if IsWhitespace(s[0]) then
      var c := Collapse(TrimStart(s));
      assert forall i :: 1 <= i < |c| + 1 ==> (" " + c)[i] == c[i - 1];
      " " + c
    else
      var c := Collapse(s[1..]);
      assert forall i :: 1 <= i < |c| + 1 ==> ([s[0]] + c)[i] == c[i - 1];
      [s[0]] + c
  }

  /** `split(' ')`: the pieces between spaces, empty ones included. */
  function Split(s: string): (r: seq<string>)
    ensures |r| >= 1
    decreases |s|
  {
    var k := IndexOf(s, ' ');
    if k == |s| then [s] else [s[..k]] + Split(s[k + 1..])
  }

  /** `filter(word => word.length > 0)`. */
  function NonEmpty(pieces: seq<string>): (r: seq<string>)
    ensures |r| <= |pieces|
    ensures forall i :: 0 <= i < |r| ==> r[i] != []
  {
    if pieces == [] then []
    else (if pieces[0] == [] then [] else [pieces[0]]) + NonEmpty(pieces[1..])
  }

  /** `cleanMnemonic`: the maximal runs of non-whitespace, joined by single spaces. */
  function Clean(mnemonic: string): (r: string)
    ensures r == Join(Runs(mnemonic))
  {
    CollapseTrimmed(Trim(mnemonic));
    RunsTrim(mnemonic);
    Collapse(Trim(mnemonic))
  }

  /** `words`: exactly the maximal runs of non-whitespace of the input, each a whitespace-free word. */
  function Words(mnemonic: string): (r: seq<string>)
    ensures r == Runs(mnemonic)
    ensures AllWords(r)
  {
    SplitCollapse(Trim(mnemonic));
    RunsTrim(mnemonic);
    RunsAreWords(mnemonic);
    NonEmpty(Split(Clean(mnemonic)))
  }

  const RequiredWords: nat := 12

  /** `isValid`: twelve maximal runs of non-whitespace. */
  function IsValid(mnemonic: string): (r: bool)
    ensures r <==> |Runs(mnemonic)| == RequiredWords
  {
    |Words(mnemonic)| == RequiredWords
  }

  // ---------------------------------------------------------------------------
  // Reference definitions

  /** The length of the leading run of non-whitespace. */
  function WordEnd(s: string): (k: nat)
    ensures k <= |s|
    ensures k < |s| ==> IsWhitespace(s[k])
    ensures s != [] && !IsWhitespace(s[0]) ==> k >= 1
  {
    if s == [] || IsWhitespace(s[0]) then 0 else 1 + WordEnd(s[1..])
  }

  /** The leading run holds no whitespace. */
  lemma {:induction false} WordEndRun(s: string)
    ensures NoWhitespace(s[..WordEnd(s)])
  {
    if s != [] && !IsWhitespace(s[0]) {
      WordEndRun(s[1..]);
      var k := WordEnd(s);
      assert s[..k] == [s[0]] + s[1..][..k - 1];
    }
  }

  /** The maximal runs of non-whitespace characters of `s`, left to right. */
  function Runs(s: string): (r: seq<string>)
    decreases |s|
  {
    var t := TrimStart(s);
    if t == [] then []
    else
      var k := WordEnd(t);
      [t[..k]] + Runs(t[k..])
  }

  /** Words separated by single spaces. */
  function Join(words: seq<string>): (r: string)
    ensures words != [] ==> |words[0]| <= |r| && r[..|words[0]|] == words[0]
  {
    if words == [] then []
    else if |words| == 1 then words[0]
    else words[0] + " " + Join(words[1..])
  }

  // ---------------------------------------------------------------------------
  // Steps

  lemma TrimStartNoop(s: string)
    requires s == [] || !IsWhitespace(s[0])
    ensures TrimStart(s) == s
  {
  }

  /** Every run is a word. */
  lemma {:induction false} RunsAreWords(s: string)
    ensures AllWords(Runs(s))
    decreases |s|
  {
    var t := TrimStart(s);
    if t != [] {
      var k := WordEnd(t);
      WordEndRun(t);
      RunsAreWords(t[k..]);
    }
  }

  /** Runs ignore leading whitespace. */
  lemma RunsSkip(s: string)
    ensures Runs(s) == Runs(TrimStart(s))
  {
    TrimStartNoop(TrimStart(s));
  }

  lemma {:induction false} WordEndAfter(w: string, rest: string)
    requires NoWhitespace(w)
    requires rest == [] || IsWhitespace(rest[0])
    ensures WordEnd(w + rest) == |w|
  {
    if w == [] {
      assert w + rest == rest;
    } else {
      assert (w + rest)[1..] == w[1..] + rest;
      assert !IsWhitespace((w + rest)[0]);
      WordEndAfter(w[1..], rest);
    }
  }

  lemma {:induction false} SpaceIndexAfter(w: string, rest: string)
    requires NoWhitespace(w)
    requires rest == [] || rest[0] == ' '
    ensures IndexOf(w + rest, ' ') == |w|
  {
    if w == [] {
      assert w + rest == rest;
    } else {
      assert (w + rest)[1..] == w[1..] + rest;
      assert !IsWhitespace((w + rest)[0]);
      SpaceIndexAfter(w[1..], rest);
    }
  }

  lemma SplitWord(w: string)
    requires NoWhitespace(w)
    ensures Split(w) == [w]
  {
    SpaceIndexAfter(w, []);
    assert w + [] == w;
  }

  lemma SplitWordSpace(w: string, x: string)
    requires NoWhitespace(w)
    ensures Split(w + " " + x) == [w] + Split(x)
  {
    var s := w + " " + x;
    assert s == w + (" " + x);
    SpaceIndexAfter(w, " " + x);
    assert s[..|w|] == w;
    assert s[|w| + 1..] == x;
  }

  lemma NonEmptyCons(w: string, pieces: seq<string>)
    ensures NonEmpty([w] + pieces) == (if w == [] then [] else [w]) + NonEmpty(pieces)
  {
    assert ([w] + pieces)[1..] == pieces;
  }

  /** A word in front passes through `replace` unchanged. */
  lemma {:induction false} CollapseWord(w: string, x: string)
    requires NoWhitespace(w)
    ensures Collapse(w + x) == w + Collapse(x)
  {
    if w != [] {
      assert (w + x)[1..] == w[1..] + x;
      CollapseWord(w[1..], x);
      assert [w[0]] + w[1..] == w;
    } else {
      assert w + x == x;
    }
  }

  /** A string that starts with a word: its first run is that word. */
  lemma RunsOfWord(s: string)
    requires s != [] && !IsWhitespace(s[0])
    ensures var k := WordEnd(s);
            1 <= k && s == s[..k] + s[k..] && NoWhitespace(s[..k])
            && Runs(s) == [s[..k]] + Runs(s[k..])
  {
    var k := WordEnd(s);
    assert 1 <= k <= |s|;
    assert s == s[..k] + s[k..];
    WordEndRun(s);
    RunsUnfold(s);
  }

  lemma RunsUnfold(s: string)
    requires s != [] && !IsWhitespace(s[0])
    ensures Runs(s) == [s[..WordEnd(s)]] + Runs(s[WordEnd(s)..])
  {
    TrimStartNoop(s);
  }

  /** `replace` turns a leading whitespace run into one space. */
  lemma CollapseWhitespace(s: string)
    requires s != [] && IsWhitespace(s[0])
    ensures Collapse(s) == [] + " " + Collapse(TrimStart(s))
  {
    assert [] + " " + Collapse(TrimStart(s)) == " " + Collapse(TrimStart(s));
  }

  /** A leading space only adds an empty piece, which the filter drops. */
  lemma SplitCollapseWhitespace(s: string)
    requires s != [] && IsWhitespace(s[0])
    ensures NonEmpty(Split(Collapse(s))) == NonEmpty(Split(Collapse(TrimStart(s))))
  {
    var c := Collapse(TrimStart(s));
    CollapseWhitespace(s);
    SplitWordSpace([], c);
    NonEmptyCons([], Split(c));
  }

  /** A word followed by whitespace or nothing becomes the first piece. */
  lemma SplitCollapseWord(w: string, x: string)
    requires IsWord(w)
    requires x == [] || IsWhitespace(x[0])
    ensures NonEmpty(Split(Collapse(w + x))) == [w] + NonEmpty(Split(Collapse(x)))
  {
    CollapseWord(w, x);
    if x == [] {
      assert w + [] == w;
      SplitWord(w);
      NonEmptyCons(w, []);
      assert Split(Collapse(x)) == [[]];
    } else {
      var c := Collapse(TrimStart(x));
      CollapseWhitespace(x);
      assert Collapse(w + x) == w + " " + c;
      SplitWordSpace(w, c);
      NonEmptyCons(w, Split(c));
      SplitCollapseWhitespace(x);
    }
  }

  /** After `replace` and `split`, the non-empty pieces are the runs. */
  lemma {:induction false} SplitCollapse(s: string)
    ensures NonEmpty(Split(Collapse(s))) == Runs(s)
    decreases |s|
  {
    if s == [] {
      assert Split([]) == [[]];
    } else if IsWhitespace(s[0]) {
      SplitCollapse(TrimStart(s));
      SplitCollapseWhitespace(s);
      RunsSkip(s);
    } else {
      var k := WordEnd(s);
      RunsOfWord(s);
      SplitCollapse(s[k..]);
      SplitCollapseWord(s[..k], s[k..]);
    }
  }

  lemma {:induction false} TrimStartAppend(u: string, v: string)
    requires AllWhitespace(v)
    ensures TrimStart(u) == [] ==> TrimStart(u + v) == []
    ensures TrimStart(u) != [] ==> TrimStart(u + v) == TrimStart(u) + v
  {
    if u == [] {
      assert u + v == v;
      AllWhitespaceTrims(v);
    } else if IsWhitespace(u[0]) {
      assert (u + v)[1..] == u[1..] + v;
      TrimStartAppend(u[1..], v);
    }
  }

  lemma {:induction false} AllWhitespaceTrims(v: string)
    requires AllWhitespace(v)
    ensures TrimStart(v) == []
  {
    if v != [] {
      AllWhitespaceTrims(v[1..]);
    }
  }

  /** A word followed by trailing whitespace keeps its run. */
  lemma RunsWordSuffix(w: string, x: string, v: string)
    requires IsWord(w) && (x == [] || IsWhitespace(x[0])) && AllWhitespace(v)
    ensures Runs(w + (x + v)) == [w] + Runs(x + v)
  {
    WhitespaceFirst(x, v);
    WordThenRest(w, x + v);
  }

  lemma WhitespaceFirst(x: string, v: string)
    requires x == [] || IsWhitespace(x[0])
    requires AllWhitespace(v)
    ensures x + v == [] || IsWhitespace((x + v)[0])
  {
    if x == [] {
      assert x + v == v;
    }
  }

  /** The runs of a word followed by whitespace or nothing. */
  lemma WordThenRest(w: string, rest: string)
    requires IsWord(w)
    requires rest == [] || IsWhitespace(rest[0])
    ensures Runs(w + rest) == [w] + Runs(rest)
  {
    WordEndAfter(w, rest);
    RunsUnfold(w + rest);
    assert (w + rest)[..|w|] == w;
    assert (w + rest)[|w|..] == rest;
  }

  /** Trailing whitespace adds no run. */
  lemma {:induction false} RunsWhitespaceSuffix(u: string, v: string)
    requires AllWhitespace(v)
    ensures Runs(u + v) == Runs(u)
    decreases |u|
  {
    TrimStartAppend(u, v);
    RunsSkip(u);
    RunsSkip(u + v);
    var t := TrimStart(u);
    if t != [] {
      var k := WordEnd(t);
      RunsOfWord(t);
      RunsWhitespaceSuffix(t[k..], v);
      RunsWordStep(t[..k], t[k..], v);
    }
  }

  /** The step of the induction: the first word keeps its run when the rest does. */
  lemma RunsWordStep(w: string, x: string, v: string)
    requires IsWord(w) && (x == [] || IsWhitespace(x[0])) && AllWhitespace(v)
    requires Runs(x + v) == Runs(x)
    ensures Runs(w + x + v) == Runs(w + x)
  {
    WordThenRest(w, x);
    RunsWordSuffix(w, x, v);
    ConcatAssoc(w, x, v);
  }

  /** Trimming changes no run. */
  lemma RunsTrim(s: string)
    ensures Runs(Trim(s)) == Runs(s)
  {
    var t := TrimStart(s);
    RunsSkip(s);
    var e := TrimEnd(t);
    assert t == e + t[|e|..];
    RunsWhitespaceSuffix(e, t[|e|..]);
  }

  lemma JoinCons(w: string, rest: seq<string>)
    requires rest != []
    ensures Join([w] + rest) == w + " " + Join(rest)
  {
    assert ([w] + rest)[1..] == rest;
  }

  /** Dropping leading whitespace keeps a last character that is not whitespace. */
  lemma TrimStartKeepsLast(x: string)
    requires x != [] && !IsWhitespace(x[|x| - 1])
    ensures TrimStart(x) != [] && TrimStart(x)[|TrimStart(x)| - 1] == x[|x| - 1]
  {
    TrimStartSplits(x);
    var d := TrimStart(x);
    assert x[|x| - 1] == (x[..|x| - |d|] + d)[|x| - 1];
  }

  /** Runs of a string that starts with a word are not empty. */
  lemma RunsNonEmpty(d: string)
    requires d != [] && !IsWhitespace(d[0])
    ensures Runs(d) != []
  {
    RunsOfWord(d);
  }

  /** A trimmed string that is a single word. */
  lemma CollapseSingleWord(t: string)
    requires t != [] && !IsWhitespace(t[0]) && t[WordEnd(t)..] == []
    ensures Collapse(t) == Join(Runs(t))
  {
    var k := WordEnd(t);
    RunsOfWord(t);
    assert k == |t| && t[..k] == t;
    CollapseWord(t, []);
    assert t + [] == t;
    assert Runs([]) == [];
    assert [t] + [] == [t];
  }

  /** A word, a whitespace run, and a trimmed rest `d` already known to collapse to its joined runs. */
  lemma CollapseWordThenRest(t: string)
    requires t != [] && !IsWhitespace(t[0])
    requires var rest := t[WordEnd(t)..];
             rest != [] && TrimStart(rest) != []
             && Collapse(TrimStart(rest)) == Join(Runs(TrimStart(rest)))
    ensures Collapse(t) == Join(Runs(t))
  {
    var k := WordEnd(t);
    var w, rest := t[..k], t[k..];
    var d := TrimStart(rest);
    RunsOfWord(t);
    CollapseWord(w, rest);
    CollapseWhitespace(rest);
    RunsSkip(rest);
    RunsNonEmpty(d);
    CollapseJoinStep(w, Collapse(t), Collapse(rest), Collapse(d), Runs(t), Runs(rest), Runs(d));
  }

  /** The string equalities of one step of `CollapseTrimmed`. */
  lemma CollapseJoinStep(w: string, ct: string, cr: string, cd: string,
                         rt: seq<string>, rr: seq<string>, rd: seq<string>)
    requires ct == w + cr && cr == [] + " " + cd && cd == Join(rd)
    requires rt == [w] + rr && rr == rd && rd != []
    ensures ct == Join(rt)
  {
    JoinCons(w, rd);
    assert [] + " " + cd == " " + cd;
    assert w + (" " + cd) == w + " " + cd;
  }

  /** On a trimmed string `replace` yields the runs joined by single spaces. */
  lemma {:induction false} CollapseTrimmed(t: string)
    requires t == [] || (!IsWhitespace(t[0]) && !IsWhitespace(t[|t| - 1]))
    ensures Collapse(t) == Join(Runs(t))
    decreases |t|
  {
    if t != [] {
      var rest := t[WordEnd(t)..];
      if rest != [] {
        assert rest[|rest| - 1] == t[|t| - 1];
        TrimStartKeepsLast(rest);
        CollapseTrimmed(TrimStart(rest));
        CollapseWordThenRest(t);
      } else {
        CollapseSingleWord(t);
      }
    }
  }

  /** The runs of a word followed by a space and a joined phrase. */
  lemma RunsWordSpace(w: string, rest: string)
    requires IsWord(w)
    requires rest != [] && !IsWhitespace(rest[0])
    ensures Runs(w + " " + rest) == [w] + Runs(rest)
  {
    var j := w + " " + rest;
    assert j == w + (" " + rest);
    WordEndAfter(w, " " + rest);
    RunsOfWord(j);
    assert j[..|w|] == w;
    assert j[|w|..] == " " + rest;
    assert (" " + rest)[1..] == rest;
    TrimStartNoop(rest);
    RunsSkip(" " + rest);
  }

  /** Joining words and cutting at whitespace gives the words back. */
  lemma {:induction false} RunsOfJoin(words: seq<string>)
    requires AllWords(words)
    ensures Runs(Join(words)) == words
  {
    if |words| == 1 {
      var w := words[0];
      WordEndAfter(w, []);
      assert w + [] == w;
      RunsOfWord(w);
      assert w[|w|..] == [];
    } else if |words| > 1 {
      var rest := Join(words[1..]);
      assert rest[0] == words[1][0];
      RunsWordSpace(words[0], rest);
      RunsOfJoin(words[1..]);
      assert [words[0]] + words[1..] == words;
    }
  }

  /** Cleaning is idempotent, and the words of the cleaned phrase are the words of the input. */
  lemma CleanIdempotent(mnemonic: string)
    ensures Clean(Clean(mnemonic)) == Clean(mnemonic)
    ensures Words(Clean(mnemonic)) == Words(mnemonic)
  {
    var words := Runs(mnemonic);
    RunsAreWords(mnemonic);
    RunsOfJoin(words);
  }

  // ---------------------------------------------------------------------------
  // Validation message and button

  const Prompt := "Enter your 12-word mnemonic"
  const CountSuffix := "/12 words"
  const ValidText := "✓ Valid mnemonic"
  const InvalidText := "Invalid mnemonic"

  /** The validation message for a phrase of `count` words. */
  function ValidationMessage(count: nat): (r: string)
    ensures r == Prompt <==> count == 0
    ensures r == ValidText <==> count == RequiredWords
    ensures r == InvalidText <==> count > RequiredWords
    ensures 0 < count < RequiredWords ==>
              EndsWith(r, CountSuffix) && |r| > |CountSuffix| && r[0] != '0'
              && AllDigits(r[..|r| - |CountSuffix|]) && Value(r[..|r| - |CountSuffix|]) == count
  {
    if count == 0 then Prompt
    else if count < RequiredWords then CountMessage(count)
    else if count == RequiredWords then ValidText
    else InvalidText
  }

  /** The `${wordCount}/12 words` progress text; short enough never to be confused with the other three messages. */
  function CountMessage(count: nat): (r: string)
    requires 0 < count < RequiredWords
    ensures EndsWith(r, CountSuffix) && |CountSuffix| < |r| <= |CountSuffix| + 2 && r[0] != '0'
    ensures AllDigits(r[..|r| - |CountSuffix|]) && Value(r[..|r| - |CountSuffix|]) == count
  {
    var digits := ToString(count);
    var r := digits + CountSuffix;
    assert r[..|r| - |CountSuffix|] == digits;
    assert r[0] == digits[0];
    assert r[|r| - |CountSuffix|..] == CountSuffix;
    assert |digits| <= 2 by {
      ToStringLength(count, 2);
    }
    r
  }

  /** The message the form shows for an input. */
  function MessageFor(mnemonic: string): (r: string)
    ensures r == Prompt <==> Runs(mnemonic) == []
    ensures r == ValidText <==> |Runs(mnemonic)| == RequiredWords
    ensures r == InvalidText <==> |Runs(mnemonic)| > RequiredWords
  {
    ValidationMessage(|Words(mnemonic)|)
  }

  /** `disabled={!isValid}` on the open button. */
  function OpenDisabled(mnemonic: string): (b: bool)
    ensures b <==> |Runs(mnemonic)| != RequiredWords
  {
    !IsValid(mnemonic)
  }

  /** The button is enabled exactly when the form says the phrase is valid. */
  lemma ButtonMatchesMessage(mnemonic: string)
    ensures !OpenDisabled(mnemonic) <==> MessageFor(mnemonic) == ValidText
  {
  }
}
