/**
 The text an affinity hash is taken of when no header names one: lower-cased words with single spaces
 between them. Two texts come out equal, and so hash alike, exactly when they have the same words.
 */
module AffinityText {
  import opened ModelFormats

  /** What lower-casing turns each character into; one character may become several. */
  type Lowering = char -> string

  /** Lower-casing a character that is no space gives some text without spaces. */
  ghost predicate KeepsWords(lower: Lowering) {
    forall c: char | !IsSpace(c) :: Word(lower(c))
  }

  /** Lower-casing what is lower-case already changes nothing. */
  ghost predicate Settled(lower: Lowering) {
    forall c: char, x: char | x in lower(c) :: lower(x) == [x]
  }

  predicate Word(w: string) {
    w != [] && forall i | 0 <= i < |w| :: !IsSpace(w[i])
  }

  predicate AtGap(s: string) {
    s == [] || IsSpace(s[|s| - 1])
  }

  /** The maximal runs of characters that are not spaces. */
  function Words(s: string): seq<string> {
    if s == [] then []
    else
      var front, c := s[..|s| - 1], s[|s| - 1];
      if IsSpace(c) then Words(front)
      else if AtGap(front) then Words(front) + [[c]]
      else Extended(Words(front), [c])
  }

  /** The last word, made longer. */
  function Extended(ws: seq<string>, more: string): seq<string> {
    if ws == [] then [more] else ws[..|ws| - 1] + [ws[|ws| - 1] + more]
  }

  function Lowered(lower: Lowering, w: string): string {
    if w == [] then [] else Lowered(lower, w[..|w| - 1]) + lower(w[|w| - 1])
  }

  function LoweredWords(lower: Lowering, ws: seq<string>): seq<string> {
    if ws == [] then [] else LoweredWords(lower, ws[..|ws| - 1]) + [Lowered(lower, ws[|ws| - 1])]
  }

  function Spaced(ws: seq<string>): string {
    if ws == [] then []
    else if |ws| == 1 then ws[0]
    else Spaced(ws[..|ws| - 1]) + " " + ws[|ws| - 1]
  }

  function NormalWords(lower: Lowering, s: string): seq<string> {
    LoweredWords(lower, Words(s))
  }

  method Normalize(lower: Lowering, s: string) returns (out: string)
    requires KeepsWords(lower)
    ensures out == Spaced(NormalWords(lower, s))
  {
    out := [];
    var prevWs := true;
    for k := 0 to |s|
      invariant prevWs == AtGap(s[..k])
      invariant out == Written(NormalWords(lower, s[..k]), prevWs)
    {
      var ch := s[k];
      assert s[..k + 1] == s[..k] + [ch];
      NextCharacter(lower, s[..k], ch);
      if IsSpace(ch) {
        if !prevWs {
          out := out + " ";
          prevWs := true;
        }
      } else {
        out := out + lower(ch);
        prevWs := false;
      }
    }
    assert s[..|s|] == s;
    NormalWordsAreWords(lower, s);
    LastCharacter(NormalWords(lower, s));
    if out != [] && out[|out| - 1] == ' ' {
      out := out[..|out| - 1];
    }
  }

  /** What the loop has written: the words so far, and a space once the last one is over. */
  function Written(ws: seq<string>, gap: bool): string {
    if ws != [] && gap then Spaced(ws) + " " else Spaced(ws)
  }

  lemma NextCharacter(lower: Lowering, s: string, c: char)
    requires KeepsWords(lower)
    ensures var before := Written(NormalWords(lower, s), AtGap(s));
            var after := Written(NormalWords(lower, s + [c]), IsSpace(c));
            after == if !IsSpace(c) then before + lower(c) else if AtGap(s) then before else before + " "
  {
    assert (s + [c])[..|s|] == s;
    if IsSpace(c) {
      assert Words(s + [c]) == Words(s);
      WordsOfText(s);
      LoweredCount(lower, Words(s));
    } else if AtGap(s) {
      assert Words(s + [c]) == Words(s) + [[c]];
      WordBegins(lower, Words(s), c);
    } else {
      assert Words(s + [c]) == Extended(Words(s), [c]);
      WordsOfText(s);
      WordGrows(lower, Words(s), c);
    }
  }

  lemma WordBegins(lower: Lowering, ws: seq<string>, c: char)
    ensures Spaced(LoweredWords(lower, ws + [[c]])) == Written(LoweredWords(lower, ws), true) + lower(c)
  {
    LoweredOneMore(lower, ws, [c]);
    assert Lowered(lower, [c]) == lower(c);
    SpacedOneMore(LoweredWords(lower, ws), lower(c));
  }

  lemma WordGrows(lower: Lowering, ws: seq<string>, c: char)
    requires ws != []
    ensures Spaced(LoweredWords(lower, Extended(ws, [c]))) == Spaced(LoweredWords(lower, ws)) + lower(c)
  {
    var front, last := ws[..|ws| - 1], ws[|ws| - 1];
    var before, word := LoweredWords(lower, front), Lowered(lower, last);
    LoweredOneMore(lower, front, last);
    LoweredOneMore(lower, front, last + [c]);
    assert ws == front + [last];
    assert Lowered(lower, last + [c]) == word + lower(c) by {
      assert (last + [c])[..|last|] == last;
    }
    SpacedOneMore(before, word);
    SpacedOneMore(before, word + lower(c));
  }

  lemma LoweredOneMore(lower: Lowering, ws: seq<string>, w: string)
    ensures LoweredWords(lower, ws + [w]) == LoweredWords(lower, ws) + [Lowered(lower, w)]
  {
    assert (ws + [w])[..|ws|] == ws;
  }

  lemma {:induction false} LoweredCount(lower: Lowering, ws: seq<string>)
    ensures |LoweredWords(lower, ws)| == |ws|
  {
    if ws != [] {
      LoweredCount(lower, ws[..|ws| - 1]);
    }
  }

  lemma SpacedOneMore(ws: seq<string>, w: string)
    ensures Spaced(ws + [w]) == Written(ws, true) + w
  {
    assert (ws + [w])[..|ws|] == ws;
  }

  ghost predicate AllWords(ws: seq<string>) {
    forall i | 0 <= i < |ws| :: Word(ws[i])
  }

  lemma {:induction false} WordsOfText(s: string)
    ensures AllWords(Words(s)) && (!AtGap(s) ==> Words(s) != [])
  {
    if s != [] {
      WordsOfText(s[..|s| - 1]);
    }
  }

  lemma {:induction false} LoweredWord(lower: Lowering, w: string)
    requires KeepsWords(lower) && Word(w)
    ensures Word(Lowered(lower, w))
  {
    var front, last := w[..|w| - 1], lower(w[|w| - 1]);
    if |w| > 1 {
      LoweredWord(lower, front);
    }
    assert Lowered(lower, w) == Lowered(lower, front) + last && Word(last);
  }

  lemma {:induction false} LoweredAreWords(lower: Lowering, ws: seq<string>)
    requires KeepsWords(lower) && AllWords(ws)
    ensures AllWords(LoweredWords(lower, ws))
  {
    if ws != [] {
      LoweredAreWords(lower, ws[..|ws| - 1]);
      LoweredWord(lower, ws[|ws| - 1]);
    }
  }

  lemma NormalWordsAreWords(lower: Lowering, s: string)
    requires KeepsWords(lower)
    ensures AllWords(NormalWords(lower, s))
  {
    WordsOfText(s);
    LoweredAreWords(lower, Words(s));
  }

  lemma LastCharacter(ws: seq<string>)
    requires AllWords(ws)
    ensures AtGap(Spaced(ws)) ==> ws == []
  {
    if ws != [] {
      var last := ws[|ws| - 1];
      assert Word(last);
      assert Spaced(ws)[|Spaced(ws)| - 1] == last[|last| - 1];
    }
  }

  // ---- What normalising identifies ----

  lemma {:induction false} WordsOfAppended(s: string, w: string)
    requires AtGap(s) && Word(w)
    ensures Words(s + w) == Words(s) + [w]
  {
    var front, c := w[..|w| - 1], w[|w| - 1];
    assert (s + w)[..|s + w| - 1] == s + front && w == front + [c];
    if front == [] {
      assert s + front == s;
    } else {
      WordsOfAppended(s, front);
      assert !AtGap(s + front);
    }
  }

  /** Spacing words out and splitting them again gives them back. */
  lemma {:induction false} SpacingRoundTrips(ws: seq<string>)
    requires AllWords(ws)
    ensures Words(Spaced(ws)) == ws
  {
    if ws != [] {
      var front, last := ws[..|ws| - 1], ws[|ws| - 1];
      assert ws == front + [last];
      SpacingRoundTrips(front);
      SpacedOneMore(front, last);
      var gap := Written(front, true);
      assert gap != [] ==> gap[..|gap| - 1] == Spaced(front);
      WordsOfAppended(gap, last);
    }
  }

  /** Two texts normalise alike exactly when they have the same lower-cased words. */
  lemma SameNormalFormIff(lower: Lowering, a: string, b: string)
    requires KeepsWords(lower)
    ensures Spaced(NormalWords(lower, a)) == Spaced(NormalWords(lower, b))
            <==> NormalWords(lower, a) == NormalWords(lower, b)
  {
    NormalWordsAreWords(lower, a);
    NormalWordsAreWords(lower, b);
    SpacingRoundTrips(NormalWords(lower, a));
    SpacingRoundTrips(NormalWords(lower, b));
  }

  /** Normalising a second time changes nothing. */
  lemma NormalFormIsStable(lower: Lowering, s: string)
    requires KeepsWords(lower) && Settled(lower)
    ensures NormalWords(lower, Spaced(NormalWords(lower, s))) == NormalWords(lower, s)
  {
    NormalWordsAreWords(lower, s);
    SpacingRoundTrips(NormalWords(lower, s));
    LoweringWordsSettles(lower, Words(s));
  }

  lemma {:induction false} LoweringWordsSettles(lower: Lowering, ws: seq<string>)
    requires Settled(lower)
    ensures LoweredWords(lower, LoweredWords(lower, ws)) == LoweredWords(lower, ws)
  {
    if ws != [] {
      var front, last := ws[..|ws| - 1], ws[|ws| - 1];
      LoweringWordsSettles(lower, front);
      LoweredOneMore(lower, LoweredWords(lower, front), Lowered(lower, last));
      LoweringSettles(lower, last);
    }
  }

  lemma {:induction false} LoweringSettles(lower: Lowering, w: string)
    requires Settled(lower)
    ensures Lowered(lower, Lowered(lower, w)) == Lowered(lower, w)
  {
    if w != [] {
      var c := w[|w| - 1];
      LoweringSettles(lower, w[..|w| - 1]);
      LoweredAppends(lower, Lowered(lower, w[..|w| - 1]), lower(c));
      AllSettled(lower, lower(c));
    }
  }

  lemma {:induction false} LoweredAppends(lower: Lowering, a: string, b: string)
    ensures Lowered(lower, a + b) == Lowered(lower, a) + Lowered(lower, b)
  {
    if b == [] {
      assert a + b == a;
    } else {
      assert (a + b)[..|a + b| - 1] == a + b[..|b| - 1];
      LoweredAppends(lower, a, b[..|b| - 1]);
    }
  }

  lemma {:induction false} AllSettled(lower: Lowering, w: string)
    requires forall x: char | x in w :: lower(x) == [x]
    ensures Lowered(lower, w) == w
  {
    if w != [] {
      AllSettled(lower, w[..|w| - 1]);
    }
  }

  /** No space at either end, none next to another, and none but the plain one. */
  ghost predicate Tight(s: string) {
    && (forall i | 0 <= i < |s| && IsSpace(s[i]) :: s[i] == ' ' && 0 < i < |s| - 1)
    && (forall i | 0 <= i < |s| - 1 && IsSpace(s[i]) :: !IsSpace(s[i + 1]))
  }

  lemma {:induction false} SpacedIsTight(ws: seq<string>)
    requires AllWords(ws)
    ensures Tight(Spaced(ws))
  {
    if |ws| == 1 {
      assert Word(ws[0]);
    } else if ws != [] {
      var front, last := ws[..|ws| - 1], ws[|ws| - 1];
      SpacedIsTight(front);
      LastCharacter(front);
      assert Word(last);
      assert Spaced(ws) == Spaced(front) + " " + last;
    }
  }

  function Letters(s: string): string {
    if s == [] then []
    else if IsSpace(s[|s| - 1]) then Letters(s[..|s| - 1])
    else Letters(s[..|s| - 1]) + [s[|s| - 1]]
  }

  lemma {:induction false} LettersJoin(a: string, b: string)
    ensures Letters(a + b) == Letters(a) + Letters(b)
  {
    if b == [] {
      assert a + b == a;
    } else {
      assert (a + b)[..|a + b| - 1] == a + b[..|b| - 1];
      LettersJoin(a, b[..|b| - 1]);
    }
  }

  lemma {:induction false} WordIsLetters(w: string)
    requires forall i | 0 <= i < |w| :: !IsSpace(w[i])
    ensures Letters(w) == w
  {
    if w != [] {
      WordIsLetters(w[..|w| - 1]);
    }
  }

  /** What normalising writes is tight, and its letters are those of the text in order, each lower-cased. */
  lemma NormalFormIsTight(lower: Lowering, s: string)
    requires KeepsWords(lower)
    ensures Tight(Spaced(NormalWords(lower, s)))
    ensures Letters(Spaced(NormalWords(lower, s))) == Lowered(lower, Letters(s))
    ensures Lowered(lower, []) == [] && forall c :: Lowered(lower, [c]) == lower(c)
  {
    NormalWordsAreWords(lower, s);
    SpacedIsTight(NormalWords(lower, s));
    LettersOfNormal(lower, s);
  }

  lemma {:induction false} LettersOfNormal(lower: Lowering, s: string)
    requires KeepsWords(lower)
    ensures Letters(Spaced(NormalWords(lower, s))) == Lowered(lower, Letters(s))
  {
    if s != [] {
      var front, c := s[..|s| - 1], s[|s| - 1];
      assert s == front + [c];
      LettersOfNormal(lower, front);
      NextCharacter(lower, front, c);
      LettersOfWritten(NormalWords(lower, front), AtGap(front));
      LettersOfWritten(NormalWords(lower, s), IsSpace(c));
      var before := Written(NormalWords(lower, front), AtGap(front));
      if IsSpace(c) {
        LettersJoin(before, " ");
      } else {
        LettersJoin(before, lower(c));
        assert Word(lower(c));
        WordIsLetters(lower(c));
        LoweredAppends(lower, Letters(front), [c]);
      }
    }
  }

  lemma LettersOfWritten(ws: seq<string>, gap: bool)
    ensures Letters(Written(ws, gap)) == Letters(Spaced(ws))
  {
    LettersJoin(Spaced(ws), " ");
    assert Letters(" ") == [];
  }
}
