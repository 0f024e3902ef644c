/** x.cpp, the earlier single-file prototype of the launcher: the same
    keyword matching with a smaller prefix bonus and no launch counts, no
    `Keywords=` words, a search that keeps every match (the window shows
    the first ten), and Up/Down that move the selection without wrapping. */
module Prototype {
  import opened Options
  import opened Text
  import opened Sorting
  import opened Catalog
  import opened Ranking
  import opened LineEditor

  /** The rows `render` draws at most. */
  const RowCap := 10

  /** x.cpp line 98: a match at offset 0 counts 100 times more; the launch
      count plays no part. */
  function ProtoBase(i: int, weight: int, prefix: bool): int
  {
    (100 - i) * weight * (if prefix then 100 else 1)
  }

  function ProtoScore(lquery: string, app: Application): int
  {
    match FirstMatch(lquery, app.keywords)
    case None => 0
    case Some(i) =>
      var kw := app.keywords[i];
      ProtoBase(i, kw.weight, Find(kw.word, lquery) == Some(0))
  }

  /** The keyword loop of x.cpp's `search`. */
  method ProtoScoreApp(lquery: string, app: Application) returns (score: int)
    ensures score == ProtoScore(lquery, app)
  {
    score := 0;
    var i := 0;
    while i < |app.keywords|
      invariant 0 <= i <= |app.keywords|
      invariant forall j :: 0 <= j < i ==> !Contains(app.keywords[j].word, lquery)
    {
      var keyword := app.keywords[i];
      var matchIndex := Find(keyword.word, lquery);
      if matchIndex.Some? {
        assert FirstMatch(lquery, app.keywords) == Some(i);
        score := ProtoBase(i, keyword.weight, matchIndex.value == 0);
        break;
      }
      i := i + 1;
    }
  }

  function ProtoScores(lquery: string, apps: seq<Application>): (r: seq<int>)
    ensures |r| == |apps|
    ensures forall i :: 0 <= i < |apps| ==> r[i] == ProtoScore(lquery, apps[i])
  {
    seq(|apps|, i requires 0 <= i < |apps| => ProtoScore(lquery, apps[i]))
  }

  /** x.cpp's `search()`: every application with a positive score, sorted
      by descending score; nothing is cut and the empty query is not
      special. */
  function ProtoRank(query: string, apps: seq<Application>): seq<Result>
  {
    SortDesc(Positives(ProtoScores(Lower(query), apps)), ScoreOf)
  }

  lemma {:induction false} ProtoScoresSnoc(lquery: string, apps: seq<Application>, k: nat)
    requires k < |apps|
    ensures Positives(ProtoScores(lquery, apps[..k + 1])) ==
      Positives(ProtoScores(lquery, apps[..k])) +
      (if ProtoScore(lquery, apps[k]) > 0 then [Result(k, ProtoScore(lquery, apps[k]))] else [])
  {
    var s := ProtoScores(lquery, apps[..k + 1]);
    assert s[..k] == ProtoScores(lquery, apps[..k]);
  }

  method ProtoSearch(query: string, apps: seq<Application>) returns (results: seq<Result>)
    ensures results == ProtoRank(query, apps)
  {
    var lquery := Lower(query);
    var found: seq<Result> := [];
    var k := 0;
    while k < |apps|
      invariant 0 <= k <= |apps|
      invariant found == Positives(ProtoScores(lquery, apps[..k]))
    {
      var score := ProtoScoreApp(lquery, apps[k]);
      ProtoScoresSnoc(lquery, apps, k);
      if score > 0 {
        found := found + [Result(k, score)];
      }
      k := k + 1;
    }
    assert apps[..k] == apps;
    results := SortDesc(found, ScoreOf);
  }

  /** The results are exactly the applications with a positive score, each
      once with its score, best first. */
  lemma {:induction false} ProtoRankIsComplete(query: string, apps: seq<Application>)
    ensures var r := ProtoRank(query, apps); var scores := ProtoScores(Lower(query), apps);
      && SortedDesc(r, ScoreOf)
      && (forall k :: 0 <= k < |r| ==> r[k].app < |apps| && r[k].score == scores[r[k].app] && r[k].score > 0)
      && (forall j, k :: 0 <= j < k < |r| ==> r[j].app != r[k].app)
      && (forall i :: 0 <= i < |apps| && scores[i] > 0 ==> Result(i, scores[i]) in r)
  {
    SortedPositives(ProtoScores(Lower(query), apps));
  }

  /** With the empty query every keyword matches at offset 0, so the first
      keyword decides the score. */
  lemma {:induction false} EmptyQueryScore(app: Application)
    requires |app.keywords| > 0
    ensures ProtoScore("", app) == 10000 * app.keywords[0].weight
  {
    FindEmpty(app.keywords[0].word);
    assert Contains(app.keywords[0].word, "");
  }

  /** A prototype catalog entry scores 10000000 for the empty query when it
      has a name and 10000 when not: its description words always give at
      least one keyword. */
  lemma {:induction false} EmptyQueryScoresEveryEntry(id: string, lines: seq<string>)
    ensures ProtoScore("", IndexEntry(id, lines, false)) ==
      if FirstValue(lines, "Name=") == "" then 10000 else 10000000
  {
    var app := IndexEntry(id, lines, false);
    var names := GetlineSplit(app.name, ' ');
    var others := GetlineSplit(app.genericName + " " + app.comment, ' ');
    GetlineSplitJoin(app.name, ' ');
    GetlineSplitJoin(app.genericName + " " + app.comment, ' ');
    assert app.keywords == Weighted([], OtherWeight) + Weighted(names, NameWeight) + Weighted(others, OtherWeight);
    assert |others| > 0;
    WeightedAt(names, NameWeight);
    WeightedAt(others, OtherWeight);
    if app.name == "" {
      assert names == [];
      assert app.keywords[0] == Weighted(others, OtherWeight)[0];
    } else {
      assert app.keywords[0] == Weighted(names, NameWeight)[0];
    }
    EmptyQueryScore(app);
  }

  /** Before anything is typed the prototype lists every entry. */
  lemma {:induction false} EmptyQueryListsEverything(apps: seq<Application>)
    requires forall k :: 0 <= k < |apps| ==> |apps[k].keywords| > 0 && apps[k].keywords[0].weight > 0
    ensures forall k :: 0 <= k < |apps| ==> Result(k, ProtoScores("", apps)[k]) in ProtoRank("", apps)
  {
    var scores := ProtoScores("", apps);
    forall k | 0 <= k < |apps| ensures scores[k] > 0 {
      EmptyQueryScore(apps[k]);
    }
    assert Lower("") == "";
    ProtoRankIsComplete("", apps);
  }

  /** What a key press does to the prototype: it keeps running (with the
      rows `render` draws) or exits. */
  datatype Outcome = Running(rows: seq<Result>) | Exited

  class Launcher {
    var query: string
    var cursor: int
    var selected: int
    var applications: seq<Application>

    ghost predicate Valid()
      reads this
    {
      0 <= cursor <= |query|
    }

    constructor (apps: seq<Application>)
      ensures query == "" && cursor == 0 && selected == 0 && applications == apps
      ensures Valid()
    {
      query := "";
      cursor := 0;
      selected := 0;
      applications := apps;
    }

    /** `render`: the first ten results of a fresh search. */
    method Render() returns (rows: seq<Result>)
      ensures rows == Take(ProtoRank(query, applications), RowCap)
    {
      var results := ProtoSearch(query, applications);
      rows := Take(results, RowCap);
    }

    /** `onKeyPress`: Escape and Return exit, Up and Down step the
        selection by one without bounds, every other key edits the query;
        then `render`. */
    method OnKeyPress(sym: KeySym, text: string) returns (outcome: Outcome)
      requires Valid()
      modifies this
      ensures outcome.Running? ==> Valid()
      ensures (sym == Escape || sym == Return) <==> outcome == Exited
      ensures outcome.Running? ==> outcome.rows == Take(ProtoRank(query, applications), RowCap)
      ensures applications == old(applications)
      ensures sym == Up ==> selected == old(selected) - 1
      ensures sym == Down ==> selected == old(selected) + 1
      ensures sym != Up && sym != Down ==> selected == old(selected)
      ensures Line(query, cursor) == EditKey(Line(old(query), old(cursor)), sym, text)
    {
      ghost var edited := EditKey(Line(query, cursor), sym, text);
      if sym == Escape || sym == Return {
        return Exited;
      } else if sym == Up {
        selected := selected - 1;
      } else if sym == Down {
        selected := selected + 1;
      } else {
        var l := EditKey(Line(query, cursor), sym, text);
        query := l.query;
        cursor := l.cursor;
      }
      assert Line(query, cursor) == edited;
      var rows := Render();
      return Running(rows);
    }
  }
}
