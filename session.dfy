/** The running launcher of launcher.cpp: the global state its main loop
    updates (query, cursor, selection, results, catalog and colours), the
    `readConfig`, `writeConfig`, `search` and `launch` procedures on it, and
    one turn of the event loop (`onKeyPress`, then `search`, then the
    selection reset). */
module Session {
  import opened Options
  import opened Text
  import opened Sorting
  import opened Catalog
  import opened Ranking
  import opened LineEditor
  import opened LaunchConfig

  /** The events the main loop asks X for (`ExposureMask | KeyPressMask |
      FocusChangeMask`): a key press, losing the focus, and the two the loop
      only redraws for, `Expose` and gaining the focus. */
  datatype Event = KeyPress(sym: KeySym, text: string) | FocusOut | FocusIn | Expose

  /** What a turn of the loop leaves behind: the launcher keeps running,
      exits, exits after starting a program (the child's argument vector
      and the parent's config file), or does something C++ leaves undefined
      (`results[selected]` on no results, `count++` past `INT_MAX`). */
  datatype Outcome = Running | Exited | Launched(argv: seq<string>, config: seq<string>) | Undefined

  /** `XK_Return`: start the selected result. */
  function ReturnOutcome(style: Style, apps: seq<Application>, results: seq<Result>, selected: int): Outcome
  {
    if !(0 <= selected < |results|) || results[selected].app >= |apps| then Undefined
    else
      var k := results[selected].app;
      if apps[k].count >= Int32Max then Undefined
      else Launched(Argv(apps[k].cmd), ConfigLines(style, Bumped(apps, k)))
  }

  class Launcher {
    var query: string
    var cursor: int
    var selected: int
    var results: seq<Result>
    var applications: seq<Application>
    var style: Style

    /** Between turns: the cursor is inside the query, the results are the
        ranking of the query over the catalog, and the selection is a
        result (or 0 when there is none). */
    ghost predicate Valid()
      reads this
    {
      && 0 <= cursor <= |query|
      && results == Rank(query, applications)
      && Selectable()
    }

    /** The part of `Valid` that `onKeyPress` relies on: the selection is a
        result (or 0 when there is none) and every result is an application. */
    ghost predicate Selectable()
      reads this
    {
      && (forall k :: 0 <= k < |results| ==> results[k].app < |applications|)
      && ((results == [] && selected == 0) || 0 <= selected < |results|)
    }

    /** The globals at start-up, with the catalog `getApplications` built. */
    constructor (apps: seq<Application>)
      ensures query == "" && cursor == 0 && selected == 0 && results == []
      ensures applications == apps && style == DefaultStyle
      ensures Valid()
    {
      query := "";
      cursor := 0;
      selected := 0;
      results := [];
      applications := apps;
      style := DefaultStyle;
    }

    /** `readConfig` over the lines of the config file; `false` when `stoi`
        throws on a count, which ends the program. */
    method ReadConfig(lines: seq<string>) returns (ok: bool)
      modifies this
      ensures ok <==> ReadLines(Config(old(style), old(applications)), lines).Some?
      ensures ok ==> ReadLines(Config(old(style), old(applications)), lines) == Some(Config(style, applications))
      ensures query == old(query) && cursor == old(cursor) && selected == old(selected) && results == old(results)
    {
      ghost var start := Config(style, applications);
      var i := 0;
      while i < |lines|
        invariant 0 <= i <= |lines|
        invariant ReadLines(start, lines[..i]) == Some(Config(style, applications))
        invariant query == old(query) && cursor == old(cursor) && selected == old(selected) && results == old(results)
      {
        assert lines[..i + 1][..i] == lines[..i];
        var r := ReadConfigLine(Config(style, applications), lines[i]);
        if r.None? {
          assert ReadLines(start, lines[..i + 1]) == None;
          NoneStaysNone(start, lines, i + 1);
          return false;
        }
        style, applications := r.value.style, r.value.apps;
        i := i + 1;
      }
      assert lines[..i] == lines;
      return true;
    }

    /** `writeConfig`: the lines of the config file for the current state. */
    method WriteConfig() returns (lines: seq<string>)
      ensures lines == ConfigLines(style, applications)
    {
      var styleLines := StyleSection(style);
      var countLines := CountSection(applications);
      lines := styleLines + ["", "[Application Launch Counts]"] + countLines;
    }

    /** `search` on the globals. */
    method Search()
      modifies this
      ensures results == Rank(query, applications)
      ensures forall k :: 0 <= k < |results| ==> results[k].app < |applications|
      ensures query == old(query) && cursor == old(cursor) && selected == old(selected)
      ensures applications == old(applications) && style == old(style)
    {
      results := SearchResults(query, applications);
    }

    /** `launch`: the child starts the command with its `%` field codes
        removed; the parent counts the launch and writes the config file. */
    method Launch(k: nat) returns (argv: seq<string>, config: seq<string>)
      requires k < |applications| && applications[k].count < Int32Max
      modifies this
      ensures argv == Argv(old(applications)[k].cmd)
      ensures applications == Bumped(old(applications), k)
      ensures config == ConfigLines(style, applications)
      ensures query == old(query) && cursor == old(cursor) && selected == old(selected)
      ensures results == old(results) && style == old(style)
    {
      argv := Arguments(applications[k].cmd);
      applications := Bumped(applications, k);
      config := WriteConfig();
    }

    /** `XK_Return`: `launch(results[selected].app)`. */
    method LaunchSelected() returns (outcome: Outcome)
      requires Selectable()
      modifies this
      ensures outcome == ReturnOutcome(old(style), old(applications), old(results), old(selected))
    {
      if |results| == 0 {
        return Undefined;
      }
      var k := results[selected].app;
      if applications[k].count >= Int32Max {
        return Undefined;
      }
      ghost var apps := applications;
      var argv, config := Launch(k);
      assert argv == Argv(apps[k].cmd);
      ghost var after := Bumped(apps, k);
      assert applications == after;
      assert style == old(style);
      assert config == ConfigLines(style, after);
      return Launched(argv, config);
    }

    /** `XK_Up` and `XK_Down`. */
    method MoveSelection(sym: KeySym)
      requires sym == Up || sym == Down
      modifies this
      ensures selected == Navigate(old(selected), |results|, sym)
      ensures query == old(query) && cursor == old(cursor) && results == old(results)
      ensures applications == old(applications) && style == old(style)
    {
      if sym == Up {
        selected := selected - 1;
        if selected < 0 {
          selected := |results| - 1;
        }
      } else {
        selected := selected + 1;
        if selected < 0 || selected >= |results| {
          selected := 0;
        }
      }
    }

    /** `onKeyPress`: Escape exits, Return launches the selected result,
        Up and Down move the selection with wrap-around, and every other key
        edits the query. */
    method OnKeyPress(sym: KeySym, text: string) returns (outcome: Outcome)
      requires 0 <= cursor <= |query| && Selectable()
      modifies this
      ensures sym == Escape ==> outcome == Exited
      ensures sym == Return ==> outcome == ReturnOutcome(old(style), old(applications), old(results), old(selected))
      ensures sym !in {Escape, Return} ==>
        && outcome == Running
        && Line(query, cursor) == EditKey(Line(old(query), old(cursor)), sym, text)
        && selected == Navigate(old(selected), |old(results)|, sym)
        && results == old(results) && applications == old(applications) && style == old(style)
    {
      if sym == Escape {
        return Exited;
      } else if sym == Return {
        outcome := LaunchSelected();
        return;
      } else if sym == Up || sym == Down {
        MoveSelection(sym);
      } else {
        var l := EditKey(Line(query, cursor), sym, text);
        query := l.query;
        cursor := l.cursor;
      }
      return Running;
    }

    /** One event of the main loop: `FocusOut` exits; a key press goes to
        `onKeyPress`; unless the program has ended, the results are then
        recomputed and an out-of-range selection reset to 0. */
    method HandleEvent(e: Event) returns (outcome: Outcome)
      requires Valid()
      modifies this
      ensures outcome.Running? ==> Valid()
      ensures outcome.Running? ==> applications == old(applications) && style == old(style)
      ensures e.FocusOut? ==> outcome == Exited
      ensures e.KeyPress? && e.sym == Escape ==> outcome == Exited
      ensures e.KeyPress? && e.sym == Return ==>
        outcome == ReturnOutcome(old(style), old(applications), old(results), old(selected))
      ensures e.KeyPress? && e.sym !in {Escape, Return} ==>
        && outcome == Running
        && Line(query, cursor) == EditKey(Line(old(query), old(cursor)), e.sym, e.text)
        && selected == Reselect(Navigate(old(selected), |old(results)|, e.sym), |results|)
      ensures e.Expose? || e.FocusIn? ==>
        outcome == Running && query == old(query) && cursor == old(cursor) &&
        results == old(results) && selected == old(selected)
    {
      if e.FocusOut? {
        return Exited;
      }
      ghost var shown := results;
      assert shown == Rank(query, applications);
      if e.KeyPress? {
        outcome := OnKeyPress(e.sym, e.text);
        if !outcome.Running? {
          return;
        }
      }
      Refresh();
      outcome := Running;
    }

    /** The rest of the main loop's turn: `search()`, then
        `if (selected >= results.size()) selected = 0;` in the unsigned
        comparison. */
    method Refresh()
      requires 0 <= cursor <= |query|
      modifies this
      ensures Valid()
      ensures selected == Reselect(old(selected), |results|)
      ensures query == old(query) && cursor == old(cursor)
      ensures applications == old(applications) && style == old(style)
    {
      Search();
      if selected < 0 || selected >= |results| {
        selected := 0;
      }
    }
  }

  /** The body of the `readConfig` loop on one line: a `key=value` line
      sets a colour or, when the key is an application's id, that
      application's count; `None` when `stoi` throws. */
  method ReadConfigLine(c: Config, line: string) returns (r: Option<Config>)
    ensures r == ApplyLine(c, line)
  {
    var style, applications := c.style, c.apps;
    var eq := Find(line, "=");
    if eq.Some? && eq.value > 0 {
      var key := line[..eq.value];
      var value := line[eq.value + 1..];
      if key == "title" {
        style := style.(titleColor := value);
      } else if key == "comment" {
        style := style.(commentColor := value);
      } else if key == "background" {
        style := style.(backgroundColor := value);
      } else if key == "highlight" {
        style := style.(highlightColor := value);
      } else if key == "match" {
        style := style.(matchColor := value);
      } else {
        var j := 0;
        while j < |applications|
          invariant 0 <= j <= |applications|
          invariant applications == c.apps && style == c.style
          invariant forall j' :: 0 <= j' < j ==> applications[j'].id != key
        {
          if applications[j].id == key {
            assert FirstWithId(applications, key) == Some(j);
            var n := Stoi(value);
            if n.None? {
              return None;
            }
            applications := applications[j := applications[j].(count := n.value)];
            break;
          }
          j := j + 1;
        }
      }
    }
    return Some(Config(style, applications));
  }

  /** The `[Style]` half of `writeConfig`. */
  method StyleSection(s: Style) returns (lines: seq<string>)
    ensures lines == StyleLines(s)
  {
    lines := ["[Style]"];
    if s.titleColor != DefaultStyle.titleColor {
      lines := lines + ["title" + "=" + s.titleColor];
    }
    ghost var written := ["[Style]"] + StyleLine("title", s.titleColor, DefaultStyle.titleColor);
    assert lines == written;
    if s.commentColor != DefaultStyle.commentColor {
      lines := lines + ["comment" + "=" + s.commentColor];
    }
    written := written + StyleLine("comment", s.commentColor, DefaultStyle.commentColor);
    assert lines == written;
    if s.matchColor != DefaultStyle.matchColor {
      lines := lines + ["match" + "=" + s.matchColor];
    }
    written := written + StyleLine("match", s.matchColor, DefaultStyle.matchColor);
    assert lines == written;
    if s.backgroundColor != DefaultStyle.backgroundColor {
      lines := lines + ["background" + "=" + s.backgroundColor];
    }
    written := written + StyleLine("background", s.backgroundColor, DefaultStyle.backgroundColor);
    assert lines == written;
    if s.highlightColor != DefaultStyle.highlightColor {
      lines := lines + ["highlight" + "=" + s.highlightColor];
    }
    written := written + StyleLine("highlight", s.highlightColor, DefaultStyle.highlightColor);
    assert lines == written;
  }

  /** The `[Application Launch Counts]` loop of `writeConfig`. */
  method CountSection(apps: seq<Application>) returns (lines: seq<string>)
    ensures lines == CountLines(apps)
  {
    lines := [];
    var i := 0;
    while i < |apps|
      invariant 0 <= i <= |apps|
      invariant lines == CountLines(apps[..i])
    {
      var app := apps[i];
      if app.count > 0 {
        lines := lines + [app.id + "=" + Decimal(app.count)];
      }
      assert apps[..i + 1][..i] == apps[..i];
      i := i + 1;
    }
    assert apps[..i] == apps;
  }

  /** The loop of `search` over the catalog, from an empty result list to
      the sorted and truncated one. */
  method SearchResults(query: string, apps: seq<Application>) returns (results: seq<Result>)
    ensures results == Rank(query, apps)
    ensures |query| == 0 ==> results == []
    ensures |query| > 0 ==> Ranked(results, Scores(Lower(query), apps))
    ensures forall k :: 0 <= k < |results| ==> results[k].app < |apps|
  {
    results := [];
    if |query| > 0 {
      var lquery := Lower(query);
      var found: seq<Result> := [];
      var k := 0;
      while k < |apps|
        invariant 0 <= k <= |apps|
        invariant found == Positives(Scores(lquery, apps[..k]))
      {
        var score := ScoreApp(lquery, apps[k]);
        ScoresSnoc(lquery, apps, k);
        if score > 0 {
          found := found + [Result(k, score)];
        }
        k := k + 1;
      }
      assert apps[..k] == apps;
      results := Take(SortDesc(found, ScoreOf), ResultCap);
    }
    RankIsTopTen(query, apps);
  }

  /** The argument loop of `launch`: every word of the command, split at
      single spaces, except those whose first character is `%`. */
  method Arguments(cmd: string) returns (argv: seq<string>)
    ensures argv == Argv(cmd)
  {
    var words := GetlineSplit(cmd, ' ');
    argv := [];
    var i := 0;
    while i < |words|
      invariant 0 <= i <= |words|
      invariant argv == DropPlaceholders(words[..i])
    {
      var arg := words[i];
      FindZeroIffPrefix(arg, "%");
      if Find(arg, "%") != Some(0) {
        argv := argv + [arg];
      }
      assert words[..i + 1][..i] == words[..i];
      i := i + 1;
    }
    assert words[..i] == words;
  }

  /** What Return leaves in the config file (its lines, each followed by
      `\n`) is read back with `getline` at the next start with the launched
      application's count one higher. */
  lemma {:induction false} ReturnIsRemembered(style: Style, apps: seq<Application>, results: seq<Result>, selected: int)
    requires Storable(apps) && NewlineFree(style, apps)
    requires ReturnOutcome(style, apps, results, selected).Launched?
    ensures var k := results[selected].app;
      var after := Bumped(apps, k);
      var file := Terminated(ReturnOutcome(style, apps, results, selected).config, '\n');
      && ReturnOutcome(style, apps, results, selected).config == ConfigLines(style, after)
      && ReadLines(Config(DefaultStyle, WithoutCounts(apps)), GetlineSplit(file, '\n'))
           == Some(Config(style, after))
  {
    var k := results[selected].app;
    var after := Bumped(apps, k);
    assert ReturnOutcome(style, apps, results, selected).config == ConfigLines(style, after);
    LaunchIsRemembered(style, apps, k);
  }

  /** Reading stops at the first line `stoi` cannot read. */
  lemma {:induction false} NoneStaysNone(c: Config, lines: seq<string>, i: nat)
    requires i <= |lines| && ReadLines(c, lines[..i]) == None
    ensures ReadLines(c, lines) == None
    decreases |lines| - i
  {
    if i == |lines| {
      assert lines[..i] == lines;
    } else {
      var next := lines[..i + 1];
      assert next[..i] == lines[..i];
      assert ReadLines(c, next) == None;
      NoneStaysNone(c, lines, i + 1);
    }
  }
}
