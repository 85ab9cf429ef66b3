/** Scores between two titles, two artist names and two album names. */
module Similarity {

  /** The text operations the scores are built on: normalised forms, the words of a text, and a word
      without the punctuation around it. */
  datatype Lexicon = Lexicon(
    normalize: string -> string, artist: string -> string, album: string -> string,
    words: string -> set<string>, bare: string -> string)

  predicate OccursAt(s: string, t: string, i: nat) {
    i + |s| <= |t| && t[i..i + |s|] == s
  }

  predicate Within(s: string, t: string) {
    exists i | 0 <= i <= |t| :: OccursAt(s, t, i)
  }

  predicate Nested(s: string, t: string) {
    Within(s, t) || Within(t, s)
  }

  function Tokens(lex: Lexicon, s: string): set<string> {
    set w | w in lex.words(s) && lex.bare(w) != "" :: lex.bare(w)
  }

  /** Shared elements over all elements; 0 when there are none. */
  function Jaccard(a: set<string>, b: set<string>): real {
    if a + b == {} then 0.0 else |a * b| as real / |a + b| as real
  }

  function Normalized(lex: Lexicon, s: string): string {
    if s == "" then "" else lex.normalize(s)
  }

  function TitleScore(lex: Lexicon, search: string, candidate: string): real {
    var s, c := Normalized(lex, search), Normalized(lex, candidate);
    if s == "" && c == "" then 1.0
    else if s == "" || c == "" then 0.0
    else if s == c then 1.0
    else if Nested(s, c) then 0.9
    else
      var st, ct := Tokens(lex, s), Tokens(lex, c);
      if st <= ct || ct <= st then Jaccard(st, ct) * 0.9 + 0.1 else Jaccard(st, ct)
  }

  function Larger(a: nat, b: nat): nat {
    if a < b then b else a
  }

  /** A token of three letters or more occurs inside the other name. */
  predicate Embedded(tokens: set<string>, name: string) {
    exists w | w in tokens :: |w| >= 3 && Within(w, name)
  }

  function ArtistScore(lex: Lexicon, search: string, candidate: string): real {
    if search == "" || candidate == "" then 0.5
    else
      var a, b := lex.artist(search), lex.artist(candidate);
      if a == "" && b == "" then 1.0
      else if a == "" || b == "" then 0.5
      else if a == b then 1.0
      else
        var at, bt := Tokens(lex, a), Tokens(lex, b);
        if at * bt != {} then
          NonEmpty(at, bt);
          |at * bt| as real / Larger(|at|, |bt|) as real
        else if Embedded(at, b) then 0.3
        else if Embedded(bt, a) then 0.3
        else 0.0
  }

  function AlbumScore(lex: Lexicon, comparison: string, ref: string, cand: string): real {
    if comparison == "contains" then
      if ref == cand then 1.0 else if Nested(ref, cand) then 0.9 else 0.0
    else if comparison == "fuzzy" then
      if lex.words(ref) == {} || lex.words(cand) == {} then 0.0
      else Jaccard(lex.words(ref), lex.words(cand))
    else
      if ref == cand then 1.0 else 0.0
  }

  // ------------------------------------------------------ texts and tokens

  /** A text is within another exactly when the other is the text with something before and after it. */
  lemma WithinIff(s: string, t: string)
    ensures Within(s, t) <==> exists before, after :: t == before + s + after
  {
    if i :| 0 <= i <= |t| && OccursAt(s, t, i) {
      assert t == t[..i] + s + t[i + |s|..];
    }
    if before, after :| t == before + s + after {
      assert OccursAt(s, t, |before|);
    }
  }

  /** The tokens of a text are what is left of its words without punctuation, and never empty. */
  lemma TokensAre(lex: Lexicon, s: string, token: string)
    ensures token in Tokens(lex, s) <==> token != "" && exists w | w in lex.words(s) :: lex.bare(w) == token
  {
  }

  /** Three letters are enough for a token to count as embedded, and fewer never are. */
  lemma EmbeddedFromThree(tokens: set<string>, before: string, token: string, after: string)
    requires token in tokens
    ensures |token| >= 3 ==> Embedded(tokens, before + token + after)
    ensures (forall w | w in tokens :: |w| <= 2) ==> !Embedded(tokens, before + token + after)
    ensures (forall w | w in tokens :: !Within(w, before)) ==> !Embedded(tokens, before)
  {
    WithinIff(token, before + token + after);
  }

  // ------------------------------------------------------ counting shared tokens

  lemma NonEmpty(a: set<string>, b: set<string>)
    requires a * b != {}
    ensures |a * b| > 0 && |a| > 0 && |b| > 0
    ensures |a * b| <= |a| && |a * b| <= |b|
  {
    var w :| w in a * b;
    assert w in a && w in b;
    Smaller(a * b, a);
    Smaller(a * b, b);
  }

  lemma {:induction false} Smaller(a: set<string>, b: set<string>)
    requires a <= b
    ensures |a| <= |b|
    ensures |a| == |b| <==> a == b
    decreases a
  {
    if w :| w in a {
      Smaller(a - {w}, b - {w});
      assert a == b <==> a - {w} == b - {w};
    }
  }

  lemma QuotientInUnit(x: nat, y: nat)
    requires x <= y && y > 0
    ensures 0.0 <= x as real / y as real <= 1.0
    ensures x as real / y as real == 1.0 <==> x == y
    ensures x as real / y as real == 0.0 <==> x == 0
  {
    var q := x as real / y as real;
    assert q * y as real == x as real;
  }

  /** The shared fraction does not depend on the order, lies in [0, 1], is 1 for equal non-empty sets and
      only for them, and is 0 exactly for sets with nothing in common. */
  lemma JaccardLaws(a: set<string>, b: set<string>)
    ensures Jaccard(a, b) == Jaccard(b, a)
    ensures 0.0 <= Jaccard(a, b) <= 1.0
    ensures Jaccard(a, b) == 1.0 <==> a == b && a != {}
    ensures Jaccard(a, b) == 0.0 <==> a * b == {}
  {
    assert a * b == b * a && a + b == b + a;
    if a + b != {} {
      Smaller(a * b, a + b);
      QuotientInUnit(|a * b|, |a + b|);
      assert a * b == a + b <==> a == b;
    }
  }

  // ------------------------------------------------------ laws of the three scores

  lemma TitleScoreLaws(lex: Lexicon, x: string, y: string)
    ensures TitleScore(lex, x, y) == TitleScore(lex, y, x)
    ensures 0.0 <= TitleScore(lex, x, y) <= 1.0
  {
    JaccardLaws(Tokens(lex, Normalized(lex, x)), Tokens(lex, Normalized(lex, y)));
  }

  /** Two titles score 1 exactly when they normalise to the same text, or when neither contains the other
      and they have the same, non-empty set of tokens. */
  lemma TitleScoreIsOne(lex: Lexicon, x: string, y: string)
    ensures TitleScore(lex, x, y) == 1.0 <==>
              var s, c := Normalized(lex, x), Normalized(lex, y);
              || s == c
              || (s != "" && c != "" && !Nested(s, c) && Tokens(lex, s) == Tokens(lex, c) != {})
  {
    JaccardLaws(Tokens(lex, Normalized(lex, x)), Tokens(lex, Normalized(lex, y)));
  }

  /** Two titles score 0 exactly when one of them alone normalises to nothing, or when neither contains the
      other and both have tokens but share none. */
  lemma TitleScoreIsZero(lex: Lexicon, x: string, y: string)
    ensures TitleScore(lex, x, y) == 0.0 <==>
              var s, c := Normalized(lex, x), Normalized(lex, y);
              || (s == "") != (c == "")
              || (s != "" && c != "" && !Nested(s, c) &&
                  Tokens(lex, s) != {} && Tokens(lex, c) != {} && Tokens(lex, s) * Tokens(lex, c) == {})
  {
    var s, c := Normalized(lex, x), Normalized(lex, y);
    WithinItself(s);
    JaccardLaws(Tokens(lex, s), Tokens(lex, c));
    if Tokens(lex, s) <= Tokens(lex, c) {
      assert Tokens(lex, s) * Tokens(lex, c) == Tokens(lex, s);
    }
    if Tokens(lex, c) <= Tokens(lex, s) {
      assert Tokens(lex, s) * Tokens(lex, c) == Tokens(lex, c);
    }
  }

  /** A token set inside the other raises the shared fraction to at least a tenth. */
  lemma TitleScoreBoost(lex: Lexicon, x: string, y: string)
    ensures var s, c := Normalized(lex, x), Normalized(lex, y);
            var a, b := Tokens(lex, s), Tokens(lex, c);
            s != "" && c != "" && s != c && !Within(s, c) && !Within(c, s) && (a <= b || b <= a) ==>
              TitleScore(lex, x, y) == 0.1 + 0.9 * Jaccard(a, b)
  {
  }

  lemma JaccardIs(a: set<string>, b: set<string>)
    ensures Jaccard(a, b) * |a + b| as real == |a * b| as real
  {
    if a + b != {} {
      assert Jaccard(a, b) * |a + b| as real == |a * b| as real;
    }
  }

  /** A title inside another one, and different from it, scores 0.9, however many tokens they share. Otherwise the
      score is at least the share of common tokens, and exactly that when neither has all the tokens of the other. */
  lemma TitleScoreLevels(lex: Lexicon, x: string, y: string)
    ensures var s, c := Normalized(lex, x), Normalized(lex, y);
            s != "" && c != "" && s != c ==>
              var a, b := Tokens(lex, s), Tokens(lex, c);
              && (Within(s, c) || Within(c, s) ==> TitleScore(lex, x, y) == 0.9)
              && (!Within(s, c) && !Within(c, s) ==> TitleScore(lex, x, y) >= Jaccard(a, b))
              && (!Within(s, c) && !Within(c, s) && !(a <= b) && !(b <= a) ==>
                    TitleScore(lex, x, y) * |a + b| as real == |a * b| as real)
              && (!Within(s, c) && !Within(c, s) && (a <= b || b <= a) && a * b == {} ==> TitleScore(lex, x, y) == 0.1)
  {
    var a, b := Tokens(lex, Normalized(lex, x)), Tokens(lex, Normalized(lex, y));
    JaccardLaws(a, b);
    JaccardIs(a, b);
  }

  lemma WithinItself(s: string)
    ensures Within(s, s)
  {
    assert OccursAt(s, s, 0);
  }

  lemma ArtistScoreLaws(lex: Lexicon, x: string, y: string)
    ensures ArtistScore(lex, x, y) == ArtistScore(lex, y, x)
    ensures 0.0 <= ArtistScore(lex, x, y) <= 1.0
  {
    var at, bt := Tokens(lex, lex.artist(x)), Tokens(lex, lex.artist(y));
    assert at * bt == bt * at;
    if at * bt != {} {
      NonEmpty(at, bt);
      QuotientInUnit(|at * bt|, Larger(|at|, |bt|));
    }
  }

  /** Two artists score 1 exactly when both are named and their names come out equal, or share all their
      tokens. */
  lemma ArtistScoreIsOne(lex: Lexicon, x: string, y: string)
    ensures ArtistScore(lex, x, y) == 1.0 <==>
              var a, b := lex.artist(x), lex.artist(y);
              && x != "" && y != ""
              && (a == b || (a != "" && b != "" && Tokens(lex, a) == Tokens(lex, b) != {}))
  {
    var at, bt := Tokens(lex, lex.artist(x)), Tokens(lex, lex.artist(y));
    if at * bt != {} {
      NonEmpty(at, bt);
      QuotientInUnit(|at * bt|, Larger(|at|, |bt|));
      Smaller(at * bt, at);
      Smaller(at * bt, bt);
      assert at * bt == at && at * bt == bt <==> at == bt;
    } else {
      assert at == bt ==> at == at * bt;
    }
  }

  /** Two artists score 0 exactly when both names are there and differ, they share no token, and no longer
      token of one occurs inside the other. */
  lemma ArtistScoreIsZero(lex: Lexicon, x: string, y: string)
    ensures ArtistScore(lex, x, y) == 0.0 <==>
              var a, b := lex.artist(x), lex.artist(y);
              && x != "" && y != "" && a != "" && b != "" && a != b
              && Tokens(lex, a) * Tokens(lex, b) == {}
              && !Embedded(Tokens(lex, a), b) && !Embedded(Tokens(lex, b), a)
  {
    var at, bt := Tokens(lex, lex.artist(x)), Tokens(lex, lex.artist(y));
    if at * bt != {} {
      NonEmpty(at, bt);
      QuotientInUnit(|at * bt|, Larger(|at|, |bt|));
    }
  }

  /** An artist that is not named counts half; names without a common token count 0.3 if a longer token of one
      occurs inside the other; a common token counts at least one part in all the tokens of the larger name. */
  lemma ArtistScoreLevels(lex: Lexicon, x: string, y: string)
    ensures x == "" || y == "" ==> ArtistScore(lex, x, y) == 0.5
    ensures x != "" && y != "" && (lex.artist(x) == "") != (lex.artist(y) == "") ==> ArtistScore(lex, x, y) == 0.5
    ensures var a, b := lex.artist(x), lex.artist(y);
            var at, bt := Tokens(lex, a), Tokens(lex, b);
            x != "" && y != "" && a != "" && b != "" && a != b ==>
              && (at * bt == {} && (Embedded(at, b) || Embedded(bt, a)) ==> ArtistScore(lex, x, y) == 0.3)
              && (at * bt != {} ==> ArtistScore(lex, x, y) * Larger(|at|, |bt|) as real == |at * bt| as real)
  {
    var at, bt := Tokens(lex, lex.artist(x)), Tokens(lex, lex.artist(y));
    if at * bt != {} {
      NonEmpty(at, bt);
    }
  }

  /** The three album comparisons: equal names only; names inside one another at 0.9; common words. Any other
      comparison is the first. */
  lemma AlbumScoreLevels(lex: Lexicon, comparison: string, x: string, y: string)
    ensures comparison != "contains" && comparison != "fuzzy" ==>
              AlbumScore(lex, comparison, x, y) == if x == y then 1.0 else 0.0
    ensures AlbumScore(lex, "contains", x, y) == 1.0 <==> x == y
    ensures AlbumScore(lex, "contains", x, y) == 0.9 <==> x != y && (Within(x, y) || Within(y, x))
    ensures AlbumScore(lex, "contains", x, y) == 0.0 <==> !Within(x, y) && !Within(y, x)
    ensures AlbumScore(lex, "fuzzy", x, y) == 1.0 <==> lex.words(x) == lex.words(y) && lex.words(x) != {}
    ensures AlbumScore(lex, "fuzzy", x, y) == 0.0 <==> lex.words(x) * lex.words(y) == {}
    ensures AlbumScore(lex, "fuzzy", x, y) * |lex.words(x) + lex.words(y)| as real ==
            |lex.words(x) * lex.words(y)| as real
  {
    JaccardLaws(lex.words(x), lex.words(y));
    WithinItself(x);
  }

  lemma AlbumScoreLaws(lex: Lexicon, comparison: string, x: string, y: string)
    ensures AlbumScore(lex, comparison, x, y) == AlbumScore(lex, comparison, y, x)
    ensures 0.0 <= AlbumScore(lex, comparison, x, y) <= 1.0
  {
    JaccardLaws(lex.words(x), lex.words(y));
  }
}
