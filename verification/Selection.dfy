/** Choosing the best scored candidate: the earliest one of maximal score, if that is good enough. */
module Selection {
  import opened Wrappers

  /** One score per candidate, absent for a candidate that is skipped. */
  type Scores = seq<Option<real>>

  /** Candidate i has a score that is positive, at least the threshold, at least every score, and strictly
      more than every earlier score. */
  ghost predicate Wins(scores: Scores, threshold: real, i: nat) {
    && i < |scores| && scores[i].Some?
    && scores[i].value > 0.0 && scores[i].value >= threshold
    && (forall j | 0 <= j < |scores| && scores[j].Some? :: scores[j].value <= scores[i].value)
    && (forall j | 0 <= j < i && scores[j].Some? :: scores[j].value < scores[i].value)
  }

  ghost function Best(scores: Scores, threshold: real): Option<nat> {
    if i: nat :| Wins(scores, threshold, i) then Some(i) else None
  }

  lemma BestWins(scores: Scores, threshold: real, i: nat)
    ensures Best(scores, threshold) == Some(i) <==> Wins(scores, threshold, i)
  {
  }

  /** What the selection loop knows after k candidates: the earliest maximum of the positive scores so far. */
  ghost predicate Leading(scores: Scores, k: nat, best: Option<nat>, bestScore: real)
    requires k <= |scores|
  {
    match best
    case None => bestScore == 0.0 && forall j | 0 <= j < k && scores[j].Some? :: scores[j].value <= 0.0
    case Some(i) =>
      && i < k && scores[i] == Some(bestScore) && bestScore > 0.0
      && (forall j | 0 <= j < k && scores[j].Some? :: scores[j].value <= bestScore)
      && (forall j | 0 <= j < i && scores[j].Some? :: scores[j].value < bestScore)
  }

  lemma LeaderIsBest(scores: Scores, threshold: real, best: Option<nat>, bestScore: real)
    requires Leading(scores, |scores|, best, bestScore)
    ensures Best(scores, threshold) == if best.Some? && bestScore >= threshold then best else None
  {
    match best
    case None =>
    case Some(i) =>
      if bestScore >= threshold {
        BestWins(scores, threshold, i);
      }
  }

  lemma LeaderStep(scores: Scores, k: nat, best: Option<nat>, bestScore: real)
    requires k < |scores| && Leading(scores, k, best, bestScore)
    ensures scores[k].Some? && scores[k].value > bestScore ==> Leading(scores, k + 1, Some(k), scores[k].value)
    ensures scores[k].None? || scores[k].value <= bestScore ==> Leading(scores, k + 1, best, bestScore)
  {
  }

  lemma {:induction false} SomeLeader(scores: Scores, k: nat) returns (best: Option<nat>, bestScore: real)
    requires k <= |scores|
    ensures Leading(scores, k, best, bestScore)
  {
    if k == 0 {
      best, bestScore := None, 0.0;
    } else {
      best, bestScore := SomeLeader(scores, k - 1);
      LeaderStep(scores, k - 1, best, bestScore);
      if scores[k - 1].Some? && scores[k - 1].value > bestScore {
        best, bestScore := Some(k - 1), scores[k - 1].value;
      }
    }
  }

  /** A candidate is chosen exactly when some score is positive and at least the threshold. */
  lemma ChosenIffGoodEnough(scores: Scores, threshold: real)
    ensures Best(scores, threshold).Some? <==>
            exists i | 0 <= i < |scores| && scores[i].Some? :: scores[i].value > 0.0 && scores[i].value >= threshold
  {
    var best, bestScore := SomeLeader(scores, |scores|);
    LeaderIsBest(scores, threshold, best, bestScore);
  }

  /** What choosing the best means for the items themselves: the earliest of maximal score among those that have
      one, if that score is positive and at least the threshold; and nothing exactly when no item is that good. */
  ghost predicate IsBest<T>(items: seq<T>, score: T -> Option<real>, threshold: real, best: Option<T>) {
    match best
    case None =>
      forall i | 0 <= i < |items| && score(items[i]).Some? ::
        score(items[i]).value <= 0.0 || score(items[i]).value < threshold
    case Some(b) =>
      exists i :: 0 <= i < |items| && items[i] == b && IsBestAt(items, score, threshold, i)
  }

  ghost predicate IsBestAt<T>(items: seq<T>, score: T -> Option<real>, threshold: real, i: nat)
    requires i < |items|
  {
    && score(items[i]).Some? && score(items[i]).value > 0.0 && score(items[i]).value >= threshold
    && (forall j | 0 <= j < |items| && score(items[j]).Some? :: score(items[j]).value <= score(items[i]).value)
    && (forall j | 0 <= j < i && score(items[j]).Some? :: score(items[j]).value < score(items[i]).value)
  }

  lemma BestIsBest<T>(items: seq<T>, score: T -> Option<real>, threshold: real, scores: Scores)
    requires |scores| == |items| && forall i | 0 <= i < |items| :: scores[i] == score(items[i])
    ensures var i := Best(scores, threshold);
            && (i.Some? ==> i.value < |items|)
            && IsBest(items, score, threshold, if i.Some? then Some(items[i.value]) else None)
  {
    var i := Best(scores, threshold);
    if i.Some? {
      assert Wins(scores, threshold, i.value);
      assert IsBestAt(items, score, threshold, i.value);
    } else {
      ChosenIffGoodEnough(scores, threshold);
    }
  }

  /** The winner of a list still wins when it stands alone. */
  lemma WinnerAlone(scores: Scores, threshold: real, i: nat)
    requires Best(scores, threshold) == Some(i)
    ensures i < |scores| && Best([scores[i]], threshold) == Some(0)
  {
    assert Wins(scores, threshold, i);
    BestWins([scores[i]], threshold, 0);
  }
}
