/** launcher.cpp's scorer and ranker (`search`) and the highlight split that
    `render` draws. */
module Ranking {
  import opened Options
  import opened Text
  import opened Sorting
  import opened Catalog

  /** At most this many results are kept (`results.resize(10)`). */
  const ResultCap := 10

  /** `struct Result`; `app` is the index in `applications` of the
      application the source's `Application *` points to. */
  datatype Result = Result(app: nat, score: int)

  function ScoreOf(r: Result): int { r.score }

  /** The relevance of a match at keyword index `i` of weight `weight`:
      a match at offset 0 of the word counts 100 times more. */
  function BaseScore(i: int, weight: int, prefix: bool): int
  {
    (100 - i) * weight * (if prefix then 10000 else 100)
  }

  /** The score of an application for the lowercase query: taken from the
      first keyword whose word contains the query, plus the launch count;
      0 when no keyword contains it. */
  function Score(lquery: string, app: Application): int
  {
    match FirstMatch(lquery, app.keywords)
    case None => 0
    case Some(i) =>
      var kw := app.keywords[i];
      BaseScore(i, kw.weight, Find(kw.word, lquery) == Some(0)) + app.count
  }

  /** The inner loop of `search`: walk the keywords with the index counter
      `i` and stop at the first whose word contains the query. */
  method ScoreApp(lquery: string, app: Application) returns (score: int)
    ensures score == Score(lquery, app)
    ensures score != 0 ==> exists i :: 0 <= i < |app.keywords| && Contains(app.keywords[i].word, lquery)
  {
    score := 0;
    var i := 0;
    while i < |app.keywords|
      invariant 0 <= i <= |app.keywords|
      invariant forall j :: 0 <= j < i ==> !Contains(app.keywords[j].word, lquery)
    {
      var keyword := app.keywords[i];
      var matchIndex := Find(keyword.word, lquery);
      if matchIndex.Some? {
        assert FirstMatch(lquery, app.keywords) == Some(i);
        score := BaseScore(i, keyword.weight, matchIndex.value == 0) + app.count;
        break;
      }
      i := i + 1;
    }
  }

  /** The score of every application of the catalog, in catalog order. */
  function Scores(lquery: string, apps: seq<Application>): (r: seq<int>)
    ensures |r| == |apps|
    ensures forall i :: 0 <= i < |apps| ==> r[i] == Score(lquery, apps[i])
  {
    seq(|apps|, i requires 0 <= i < |apps| => Score(lquery, apps[i]))
  }

  /** Each positive score paired with its index, in index order (the
      `push_back` of `search` for every application with `score > 0`). */
  function Positives(scores: seq<int>): (r: seq<Result>)
    ensures forall k :: 0 <= k < |r| ==>
      r[k].app < |scores| && r[k].score == scores[r[k].app] && r[k].score > 0
    ensures forall j, k :: 0 <= j < k < |r| ==> r[j].app < r[k].app
    ensures forall i :: 0 <= i < |scores| && scores[i] > 0 ==> Result(i, scores[i]) in r
  {
    if scores == [] then []
    else
      var n := |scores| - 1;
      var init := scores[..n];
      assert forall i :: 0 <= i < n ==> init[i] == scores[i];
      Positives(init) + (if scores[n] > 0 then [Result(n, scores[n])] else [])
  }

  /** One more application seen by the `search` loop. */
  lemma {:induction false} ScoresSnoc(lquery: string, apps: seq<Application>, k: nat)
    requires k < |apps|
    ensures Positives(Scores(lquery, apps[..k + 1])) ==
      Positives(Scores(lquery, apps[..k])) +
      (if Score(lquery, apps[k]) > 0 then [Result(k, Score(lquery, apps[k]))] else [])
  {
    var s := Scores(lquery, apps[..k + 1]);
    assert s[..k] == Scores(lquery, apps[..k]);
  }

  function Candidates(lquery: string, apps: seq<Application>): seq<Result>
  {
    Positives(Scores(lquery, apps))
  }

  /** The result list after `search()`: nothing for an empty query;
      otherwise the candidates sorted by descending score and cut to 10. */
  function Rank(query: string, apps: seq<Application>): seq<Result>
  {
    if |query| == 0 then []
    else Take(SortDesc(Candidates(Lower(query), apps), ScoreOf), ResultCap)
  }

  /** What a result list promises, given the score of every application:
      at most 10 entries, each an application with its positive score, in
      non-increasing score order, no application twice, and no application
      with a positive score left out unless the list is full of entries that
      score at least as high. */
  ghost predicate Ranked(r: seq<Result>, scores: seq<int>)
  {
    && |r| <= ResultCap
    && (forall k :: 0 <= k < |r| ==>
          r[k].app < |scores| && r[k].score == scores[r[k].app] && r[k].score > 0)
    && SortedDesc(r, ScoreOf)
    && (forall j, k :: 0 <= j < k < |r| ==> r[j].app != r[k].app)
    && (forall i :: 0 <= i < |scores| && scores[i] > 0 && (forall k :: 0 <= k < |r| ==> r[k].app != i) ==>
          |r| == ResultCap && forall k :: 0 <= k < |r| ==> r[k].score >= scores[i])
  }

  /** The sorted candidates are still the positive scores, each once. */
  lemma {:induction false} SortedPositives(scores: seq<int>)
    ensures var s := SortDesc(Positives(scores), ScoreOf);
      (forall k :: 0 <= k < |s| ==> s[k].app < |scores| && s[k].score == scores[s[k].app] && s[k].score > 0) &&
      (forall j, k :: 0 <= j < k < |s| ==> s[j].app != s[k].app) &&
      (forall i :: 0 <= i < |scores| && scores[i] > 0 ==> Result(i, scores[i]) in s)
  {
    var c := Positives(scores);
    var s := SortDesc(c, ScoreOf);
    assert Distinct(c);
    DistinctPermutation(c, s);
    forall k | 0 <= k < |s|
      ensures s[k].app < |scores| && s[k].score == scores[s[k].app] && s[k].score > 0
    {
      assert s[k] in multiset(c);
    }
    forall i | 0 <= i < |scores| && scores[i] > 0 ensures Result(i, scores[i]) in s {
      assert Result(i, scores[i]) in multiset(c);
    }
  }

  /** Cutting a sorted list after 10 entries keeps the highest scores. */
  lemma {:induction false} TakeKeepsHighest(s: seq<Result>, i: nat, score: int)
    requires SortedDesc(s, ScoreOf)
    requires Result(i, score) in s
    requires forall k :: 0 <= k < |Take(s, ResultCap)| ==> Take(s, ResultCap)[k].app != i
    ensures |Take(s, ResultCap)| == ResultCap
    ensures forall k :: 0 <= k < ResultCap ==> Take(s, ResultCap)[k].score >= score
  {
    var r := Take(s, ResultCap);
    var p :| 0 <= p < |s| && s[p] == Result(i, score);
    if p < |r| {
      assert false;
    }
    forall k | 0 <= k < ResultCap ensures r[k].score >= score {
      assert r[k] == s[k];
      assert ScoreOf(s[k]) >= ScoreOf(s[p]);
    }
  }

  /** A prefix of a sorted list of scored, distinct applications is one too. */
  lemma {:induction false} PrefixKeeps(s: seq<Result>, r: seq<Result>, scores: seq<int>)
    requires r <= s && SortedDesc(s, ScoreOf)
    requires forall k :: 0 <= k < |s| ==> s[k].app < |scores| && s[k].score == scores[s[k].app] && s[k].score > 0
    requires forall j, k :: 0 <= j < k < |s| ==> s[j].app != s[k].app
    ensures SortedDesc(r, ScoreOf)
    ensures forall k :: 0 <= k < |r| ==> r[k].app < |scores| && r[k].score == scores[r[k].app] && r[k].score > 0
    ensures forall j, k :: 0 <= j < k < |r| ==> r[j].app != r[k].app
  {
    forall k | 0 <= k < |r|
      ensures r[k].app < |scores| && r[k].score == scores[r[k].app] && r[k].score > 0
    {
      assert r[k] == s[k];
    }
    forall j, k | 0 <= j < k < |r| ensures ScoreOf(r[j]) >= ScoreOf(r[k]) && r[j].app != r[k].app {
      assert r[j] == s[j] && r[k] == s[k];
    }
  }

  /** The ranking of a list of scores: sorted descending, cut to 10. */
  lemma {:induction false} TopOfPositives(scores: seq<int>)
    ensures Ranked(Take(SortDesc(Positives(scores), ScoreOf), ResultCap), scores)
  {
    var s := SortDesc(Positives(scores), ScoreOf);
    var r := Take(s, ResultCap);
    SortedPositives(scores);
    PrefixKeeps(s, r, scores);
    forall i | 0 <= i < |scores| && scores[i] > 0 && (forall k :: 0 <= k < |r| ==> r[k].app != i)
      ensures |r| == ResultCap && forall k :: 0 <= k < |r| ==> r[k].score >= scores[i]
    {
      TakeKeepsHighest(s, i, scores[i]);
    }
  }

  /** `search()` yields no results for an empty query and, for any other, a
      correctly ranked top-10 list of the applications' scores for the
      lowercased query. */
  lemma {:induction false} RankIsTopTen(query: string, apps: seq<Application>)
    ensures |query| == 0 ==> Rank(query, apps) == []
    ensures |query| > 0 ==> Ranked(Rank(query, apps), Scores(Lower(query), apps))
    ensures |query| > 0 ==>
      |Rank(query, apps)| == if |Candidates(Lower(query), apps)| <= ResultCap
                             then |Candidates(Lower(query), apps)| else ResultCap
  {
    if |query| > 0 {
      TopOfPositives(Scores(Lower(query), apps));
      assert |SortDesc(Candidates(Lower(query), apps), ScoreOf)| == |Candidates(Lower(query), apps)| by {
        var c := Candidates(Lower(query), apps);
        assert |multiset(SortDesc(c, ScoreOf))| == |multiset(c)|;
      }
    }
  }

  // ------------------------------------------------- ordering of classes

  /** A match at offset 0 outranks a match inside the word at the same
      keyword index and weight while launch counts stay below 9900. */
  lemma {:induction false} PrefixOutranksInterior(i: int, weight: int, countA: int, countB: int)
    requires 0 <= i < 100 && weight >= 1
    requires 0 <= countA && 0 <= countB < 9900
    ensures BaseScore(i, weight, true) + countA > BaseScore(i, weight, false) + countB
  {
    var m := (100 - i) * weight;
    assert m >= 1 by { assert 100 - i >= 1; }
    assert BaseScore(i, weight, true) - BaseScore(i, weight, false) == m * 9900;
  }

  /** A name word (weight 1000) outranks a description word (weight 1) at
      the same index and kind of match while counts stay below 99900. */
  lemma {:induction false} NameOutranksDescription(i: int, prefix: bool, countA: int, countB: int)
    requires 0 <= i < 100
    requires 0 <= countA && 0 <= countB < 99900
    ensures BaseScore(i, 1000, prefix) + countA > BaseScore(i, 1, prefix) + countB
  {
    var f := if prefix then 10000 else 100;
    assert BaseScore(i, 1000, prefix) - BaseScore(i, 1, prefix) == (100 - i) * 999 * f;
    assert (100 - i) * 999 * f >= 99900;
  }

  /** An earlier keyword outranks a later one of the same weight and kind
      of match while counts stay below 100. */
  lemma {:induction false} EarlierOutranksLater(i: int, j: int, weight: int, prefix: bool, countA: int, countB: int)
    requires 0 <= i < j && weight >= 1
    requires 0 <= countA && 0 <= countB < 100
    ensures BaseScore(i, weight, prefix) + countA > BaseScore(j, weight, prefix) + countB
  {
    var f := if prefix then 10000 else 100;
    assert BaseScore(i, weight, prefix) - BaseScore(j, weight, prefix) == (j - i) * weight * f;
    assert (j - i) * weight >= 1;
    assert (j - i) * weight * f >= 100;
  }

  /** The score of an application whose first match is keyword `i`. */
  predicate FirstMatchIs(lquery: string, app: Application, i: nat, weight: int, prefix: bool)
  {
    && FirstMatch(lquery, app.keywords) == Some(i) && app.keywords[i].weight == weight
    && (Find(app.keywords[i].word, lquery) == Some(0)) == prefix
  }

  /** For whole applications: one whose first match starts a word outranks
      one whose first match, at the same index and weight, is inside a word. */
  lemma {:induction false} PrefixAppOutranksInterior(lquery: string, a: Application, b: Application, i: nat, weight: int)
    requires i < 100 && weight >= 1 && 0 <= a.count && 0 <= b.count < 9900
    requires FirstMatchIs(lquery, a, i, weight, true) && FirstMatchIs(lquery, b, i, weight, false)
    ensures Score(lquery, a) > Score(lquery, b)
  {
    PrefixOutranksInterior(i, weight, a.count, b.count);
  }

  /** For whole applications: a first match on a name word outranks one on
      a description word at the same index and kind of match. */
  lemma {:induction false} NameAppOutranksDescription(lquery: string, a: Application, b: Application, i: nat, prefix: bool)
    requires i < 100 && 0 <= a.count && 0 <= b.count < 99900
    requires FirstMatchIs(lquery, a, i, 1000, prefix) && FirstMatchIs(lquery, b, i, 1, prefix)
    ensures Score(lquery, a) > Score(lquery, b)
  {
    NameOutranksDescription(i, prefix, a.count, b.count);
  }

  /** For whole applications: an earlier first match outranks a later one
      of the same weight and kind of match. */
  lemma {:induction false} EarlierAppOutranksLater(lquery: string, a: Application, b: Application, i: nat, j: nat, weight: int, prefix: bool)
    requires i < j && weight >= 1 && 0 <= a.count && 0 <= b.count < 100
    requires FirstMatchIs(lquery, a, i, weight, prefix) && FirstMatchIs(lquery, b, j, weight, prefix)
    ensures Score(lquery, a) > Score(lquery, b)
  {
    EarlierOutranksLater(i, j, weight, prefix, a.count, b.count);
  }

  // ------------------------------------------------------------ highlight

  /** How `render` draws a name or comment: unchanged when the lowercase
      query does not occur in its lowercased text, otherwise as the part
      before the first occurrence, the occurrence (in bold) and the rest, all
      cut from the original-case text. */
  datatype Highlight = Plain(text: string) | Marked(before: string, matched: string, after: string)

  lemma {:induction false} LowerSlice(s: string, i: nat, j: nat)
    requires i <= j <= |s|
    ensures Lower(s[i..j]) == Lower(s)[i..j]
  {
  }

  function HighlightSplit(text: string, query: string): (h: Highlight)
    ensures h.Plain? ==> h.text == text && Find(Lower(text), Lower(query)).None?
    ensures h.Marked? ==> h.before + h.matched + h.after == text
    ensures h.Marked? ==> |h.matched| == |query| && Lower(h.matched) == Lower(query)
    ensures h.Marked? ==> Find(Lower(text), Lower(query)) == Some(|h.before|)
  {
    match Find(Lower(text), Lower(query))
    case None => Plain(text)
    case Some(i) =>
      MarkedSplit(text, query, i);
      Marked(text[..i], text[i..i + |query|], text[i + |query|..])
  }

  lemma {:induction false} MarkedSplit(text: string, query: string, i: nat)
    requires Find(Lower(text), Lower(query)) == Some(i)
    ensures i + |query| <= |text|
    ensures text[..i] + text[i..i + |query|] + text[i + |query|..] == text
    ensures Lower(text[i..i + |query|]) == Lower(query)
  {
    FoundAt(text, query, i);
    ThreeParts(text, i, i + |query|);
    LowerSlice(text, i, i + |query|);
  }

  lemma {:induction false} FoundAt(text: string, query: string, i: nat)
    requires Find(Lower(text), Lower(query)) == Some(i)
    ensures i + |query| <= |text| && Lower(text)[i..i + |query|] == Lower(query)
  {
    assert OccursAt(Lower(text), Lower(query), i);
  }

  lemma {:induction false} ThreeParts(s: string, i: nat, j: nat)
    requires i <= j <= |s|
    ensures s[..i] + s[i..j] + s[j..] == s
  {
    assert s[..j] == s[..i] + s[i..j];
    assert s == s[..j] + s[j..];
  }

  /** The strings one row draws for a field, left to right. */
  function Pieces(h: Highlight): seq<string>
  {
    match h
    case Plain(text) => [text]
    case Marked(before, matched, after) => [before, matched, after]
  }

  /** The text a row shows: its pieces side by side. */
  function Shown(pieces: seq<string>): string
  {
    if pieces == [] then [] else Shown(pieces[..|pieces| - 1]) + pieces[|pieces| - 1]
  }

  /** Drawn piece by piece, a field shows exactly its own text. */
  lemma {:induction false} ShownIsText(text: string, query: string)
    ensures Shown(Pieces(HighlightSplit(text, query))) == text
  {
    var h := HighlightSplit(text, query);
    if h.Marked? {
      var p := Pieces(h);
      assert p[..2][..1] == [h.before] && [h.before][..0] == [];
      assert p[..2] == [h.before, h.matched];
      assert Shown([h.before]) == h.before;
      assert Shown(p[..2]) == h.before + h.matched;
    } else {
      assert [text][..0] == [];
    }
  }

  /** The matching is case-insensitive: a text that begins with the query
      in any case ("Web Browser" for "web") is found at offset 0. */
  lemma {:induction false} FindPrefixAnyCase(text: string, query: string)
    requires |query| <= |text| && Lower(text[..|query|]) == Lower(query)
    ensures Find(Lower(text), Lower(query)) == Some(0)
  {
    var n := |query|;
    assert text == text[..n] + text[n..];
    LowerAppend(text[..n], text[n..]);
    FindZeroIffPrefix(Lower(text), Lower(query));
  }

  /** Such a text is drawn as nothing, its first `|query|` characters in
      bold, then the rest: "Web Browser" for "web" is "", "Web", " Browser",
      the pieces keeping the text's own case. */
  lemma {:induction false} HighlightOfPrefix(text: string, query: string)
    requires |query| <= |text| && Lower(text[..|query|]) == Lower(query)
    ensures HighlightSplit(text, query) == Marked("", text[..|query|], text[|query|..])
  {
    FindPrefixAnyCase(text, query);
  }
}
