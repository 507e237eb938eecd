/** The high-score ledger: for each difficulty, the names of the last five
    players who won at it, oldest first. */
module Scoreboard {
  import opened Optional

  /** Difficulty name to winner names, as stored in scores.json. */
  type Scores = map<string, seq<string>>

  /** How many names a difficulty keeps. */
  const Kept := 5

  /** The ledger when no scores file exists yet. */
  function DefaultScores(): (r: Scores)
    ensures r.Keys == {"Easy", "Medium", "Hard"}
    ensures forall d :: d in r ==> r[d] == []
  {
    map["Easy" := [], "Medium" := [], "Hard" := []]
  }

  /** The stored ledger, or the default one when there is no file. */
  function LoadScores(stored: Option<Scores>): (r: Scores)
    ensures stored.Some? ==> r == stored.value
    ensures stored.None? ==> r.Keys == {"Easy", "Medium", "Hard"} && forall d :: d in r ==> r[d] == []
  {
    if stored.Some? then stored.value else DefaultScores()
  }

  /** The last Kept elements of s, or all of s when it is shorter. */
  function LastKept<T>(s: seq<T>): (r: seq<T>)
    ensures |r| == if |s| < Kept then |s| else Kept
    ensures r == s[|s| - |r|..]
  {
    if |s| <= Kept then s else s[|s| - Kept..]
  }

  /** The ledger after `name` won at `difficulty`: the name is appended to
      that difficulty's list, which is then cut back to its last five. */
  function WithScore(scores: Scores, name: string, difficulty: string): (r: Scores)
    requires difficulty in scores
    ensures r.Keys == scores.Keys
    ensures r[difficulty] == LastKept(scores[difficulty] + [name])
    ensures forall d :: d in scores && d != difficulty ==> r[d] == scores[d]
  {
    scores[difficulty := LastKept(scores[difficulty] + [name])]
  }

  /** The updated list is never empty, never longer than five, and ends
      with the new name; a short list just gains the name, a full one loses
      exactly its oldest name. */
  lemma WithScoreShape(scores: Scores, name: string, difficulty: string)
    requires difficulty in scores
    ensures var r := WithScore(scores, name, difficulty)[difficulty];
      0 < |r| <= Kept && r[|r| - 1] == name
    ensures |scores[difficulty]| < Kept ==> WithScore(scores, name, difficulty)[difficulty] == scores[difficulty] + [name]
    ensures |scores[difficulty]| == Kept ==> WithScore(scores, name, difficulty)[difficulty] == scores[difficulty][1..] + [name]
  {
  }

  /** The ledger after each of `names`, in order, won at `difficulty`. */
  function WithScores(scores: Scores, names: seq<string>, difficulty: string): (r: Scores)
    requires difficulty in scores
    ensures r.Keys == scores.Keys
    decreases |names|
  {
    if names == [] then scores
    else WithScores(WithScore(scores, names[0], difficulty), names[1..], difficulty)
  }

  /** However many wins are recorded one by one, the list holds the last
      five names of the old list followed by the new winners. */
  lemma {:induction false} WithScoresKeepsLast(scores: Scores, names: seq<string>, difficulty: string)
    requires difficulty in scores
    requires |scores[difficulty]| <= Kept
    ensures WithScores(scores, names, difficulty)[difficulty] == LastKept(scores[difficulty] + names)
    decreases |names|
  {
    var before := scores[difficulty];
    if names == [] {
      assert before + names == before;
    } else {
      var next := WithScore(scores, names[0], difficulty);
      WithScoresKeepsLast(next, names[1..], difficulty);
      LastKeptFirst(before, names);
    }
  }

  /** Recording the first name and then the rest keeps the same last five
      as recording all of them. */
  lemma LastKeptFirst<T>(s: seq<T>, names: seq<T>)
    requires names != []
    ensures LastKept(LastKept(s + [names[0]]) + names[1..]) == LastKept(s + names)
  {
    assert names == [names[0]] + names[1..];
    assert (s + [names[0]]) + names[1..] == s + names;
    LastKeptConcat(s + [names[0]], names[1..]);
  }

  /** Wins recorded at one difficulty leave every other difficulty's list
      as it was. */
  lemma {:induction false} WithScoresKeepsOthers(scores: Scores, names: seq<string>, difficulty: string, other: string)
    requires difficulty in scores && other in scores && other != difficulty
    ensures WithScores(scores, names, difficulty)[other] == scores[other]
    decreases |names|
  {
    if names != [] {
      WithScoresKeepsOthers(WithScore(scores, names[0], difficulty), names[1..], difficulty, other);
    }
  }

  /** The last five of a list are those of any suffix at least five long. */
  lemma LastKeptSuffix<T>(p: seq<T>, b: seq<T>)
    requires |b| >= Kept
    ensures LastKept(p + b) == LastKept(b)
  {
    var a := p + b;
    assert a[|p|..] == b;
    assert a[|a| - Kept..] == a[|p|..][|b| - Kept..];
  }

  /** Cutting a list back before appending more does not change the last five. */
  lemma LastKeptConcat<T>(s: seq<T>, t: seq<T>)
    ensures LastKept(LastKept(s) + t) == LastKept(s + t)
  {
    if |s| > Kept {
      var u := LastKept(s);
      assert s == s[..|s| - Kept] + u;
      assert s + t == s[..|s| - Kept] + (u + t);
      LastKeptSuffix(s[..|s| - Kept], u + t);
    }
  }

  /** The scores file: absent, or holding a ledger. */
  class ScoreFile {
    var stored: Option<Scores>
  }

  /** Records that `name` won at `difficulty`: loads the ledger, appends the
      name to that difficulty's list, keeps its last five names and writes the
      ledger back. A difficulty that is not a key of the ledger is an error
      in the engine, so it is excluded here. */
  method SaveScore(file: ScoreFile, name: string, difficulty: string)
    requires difficulty in LoadScores(file.stored)
    modifies file
    ensures file.stored == Some(WithScore(LoadScores(old(file.stored)), name, difficulty))
  {
    var scores := LoadScores(file.stored);
    ghost var loaded := scores;
    scores := scores[difficulty := scores[difficulty] + [name]];
    scores := scores[difficulty := LastKept(scores[difficulty])];
    assert scores == WithScore(loaded, name, difficulty);
    file.stored := Some(scores);
  }
}
