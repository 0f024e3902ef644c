/** The application catalog of the two C++ launchers: the `Keyword` and
    `Application` records, the per-file body of `getApplications` that turns
    the lines of one desktop-entry file into an `Application` with its
    weighted keywords, and the "first keyword containing the query" search
    that both scorers start from.  launcher.cpp reads `Keywords=` lines;
    the earlier x.cpp does not (the `readKeywords` flag). */
module Catalog {
  import opened Options
  import opened Text

  /** `struct Keyword`: a lowercase word and the weight of the field it came from. */
  datatype Keyword = Keyword(word: string, weight: int)

  /** `struct Application`; `count` is the launch count (0 when created). */
  datatype Application = Application(
    id: string, name: string, genericName: string, comment: string, cmd: string,
    keywords: seq<Keyword>, count: int)

  const NameWeight := 1000
  const OtherWeight := 1

  /** Each word lowercased and given `weight`, in order. */
  function Weighted(ws: seq<string>, weight: int): (r: seq<Keyword>)
    ensures |r| == |ws|
  {
    if ws == [] then []
    else Weighted(ws[..|ws| - 1], weight) + [Keyword(Lower(ws[|ws| - 1]), weight)]
  }

  /** The keyword at each position is the word there, lowercased, with the weight. */
  lemma {:induction false} WeightedAt(ws: seq<string>, weight: int)
    ensures forall k :: 0 <= k < |ws| ==> Weighted(ws, weight)[k] == Keyword(Lower(ws[k]), weight)
  {
    if ws != [] {
      var init := ws[..|ws| - 1];
      WeightedAt(init, weight);
      assert forall k :: 0 <= k < |init| ==> init[k] == ws[k];
    }
  }

  lemma {:induction false} WeightedAppend(a: seq<string>, b: seq<string>, weight: int)
    ensures Weighted(a + b, weight) == Weighted(a, weight) + Weighted(b, weight)
  {
    var l, r := Weighted(a + b, weight), Weighted(a, weight) + Weighted(b, weight);
    WeightedAt(a + b, weight);
    WeightedAt(a, weight);
    WeightedAt(b, weight);
    forall k | 0 <= k < |l| ensures l[k] == r[k] {
      if k < |a| { assert (a + b)[k] == a[k]; } else { assert (a + b)[k] == b[k - |a|]; }
    }
  }

  /** The `while (getline(ss, word, ' ')) keywords.push_back({ lowercase(word), weight })`
      loops of `getApplications`, reading the text one character at a time
      as `getline` does: a space ends the current word, and a final word is
      pushed only when characters were read for it. */
  method AppendTokens(keywords: seq<Keyword>, text: string, weight: int) returns (out: seq<Keyword>)
    ensures out == keywords + Weighted(GetlineSplit(text, ' '), weight)
  {
    out := keywords;
    var word := "";
    ghost var done: seq<string> := [];
    var i := 0;
    while i < |text|
      invariant 0 <= i <= |text|
      invariant FullSplit(text[..i], ' ') == done + [word]
      invariant out == keywords + Weighted(done, weight)
    {
      TokenStep(keywords, text, i, done, word, out, weight);
      if text[i] == ' ' {
        out := out + [Keyword(Lower(word), weight)];
        done := done + [word];
        word := "";
      } else {
        word := word + [text[i]];
      }
      i := i + 1;
    }
    assert text[..i] == text;
    LastToken(keywords, text, done, word, out, weight);
    if word != "" {
      out := out + [Keyword(Lower(word), weight)];
    }
  }

  /** The end of the text: the pending word is pushed unless it is empty. */
  lemma {:induction false} LastToken(keywords: seq<Keyword>, text: string, done: seq<string>, word: string,
                  out: seq<Keyword>, weight: int)
    requires FullSplit(text, ' ') == done + [word]
    requires out == keywords + Weighted(done, weight)
    ensures word == "" ==> out == keywords + Weighted(GetlineSplit(text, ' '), weight)
    ensures word != "" ==> out + [Keyword(Lower(word), weight)] == keywords + Weighted(GetlineSplit(text, ' '), weight)
  {
    LastWord(text, done, word, ' ');
    if word != "" {
      WeightedSnoc(done, word, weight);
    }
  }

  /** At the end of the text the pending word is a `getline` word unless it is empty. */
  lemma {:induction false} LastWord(text: string, done: seq<string>, word: string, d: char)
    requires FullSplit(text, d) == done + [word]
    ensures GetlineSplit(text, d) == if word == "" then done else done + [word]
  {
    GetlineFromFullSplit(text, d);
    assert (done + [word])[..|done|] == done;
  }

  /** One character of the token loop keeps both of its invariants. */
  lemma {:induction false} TokenStep(keywords: seq<Keyword>, text: string, i: nat, done: seq<string>, word: string,
                  out: seq<Keyword>, weight: int)
    requires i < |text| && FullSplit(text[..i], ' ') == done + [word]
    requires out == keywords + Weighted(done, weight)
    ensures text[i] == ' ' ==>
      && FullSplit(text[..i + 1], ' ') == (done + [word]) + [""]
      && out + [Keyword(Lower(word), weight)] == keywords + Weighted(done + [word], weight)
    ensures text[i] != ' ' ==> FullSplit(text[..i + 1], ' ') == done + [word + [text[i]]]
  {
    SplitStep(text, i, done, word, ' ');
    WeightedSnoc(done, word, weight);
  }

  lemma {:induction false} WeightedSnoc(ws: seq<string>, x: string, weight: int)
    ensures Weighted(ws + [x], weight) == Weighted(ws, weight) + [Keyword(Lower(x), weight)]
  {
    assert (ws + [x])[..|ws|] == ws;
  }

  /** Reading one more character of the text, as the scan loop does. */
  lemma {:induction false} SplitStep(text: string, i: nat, done: seq<string>, word: string, d: char)
    requires i < |text| && FullSplit(text[..i], d) == done + [word]
    ensures text[i] == d ==> FullSplit(text[..i + 1], d) == (done + [word]) + [[]]
    ensures text[i] != d ==> FullSplit(text[..i + 1], d) == done + [word + [text[i]]]
  {
    assert text[..i + 1] == text[..i] + [text[i]];
    FullSplitSnoc(text[..i], text[i], d);
    assert (done + [word])[..|done|] == done;
  }

  // ------------------------------------------------------- the line scan

  /** `line.find(prefix) == 0` with non-empty text after the prefix. */
  predicate HasValue(line: string, prefix: string)
  {
    prefix <= line && line[|prefix|..] != ""
  }

  /** A field after the scan: `if (field == "" && line.find(prefix) == 0)
      field = line.substr(|prefix|)` applied to every line in turn. */
  function FirstValue(lines: seq<string>, prefix: string): string
  {
    if lines == [] then ""
    else
      var v := FirstValue(lines[..|lines| - 1], prefix);
      var l := lines[|lines| - 1];
      if v == "" && prefix <= l then l[|prefix|..] else v
  }

  /** A field stays empty exactly when no line gives it a non-empty value. */
  lemma {:induction false} FirstValueEmpty(lines: seq<string>, prefix: string)
    ensures FirstValue(lines, prefix) == "" <==>
            forall j :: 0 <= j < |lines| ==> !HasValue(lines[j], prefix)
  {
    if lines != [] {
      var p := lines[..|lines| - 1];
      FirstValueEmpty(p, prefix);
      assert forall j :: 0 <= j < |p| ==> p[j] == lines[j];
    }
  }

  /** The first non-empty value wins: later lines never replace it and
      earlier lines with an empty value do not block it. */
  lemma {:induction false} FirstValueIsFirst(lines: seq<string>, prefix: string, k: nat)
    requires k < |lines| && HasValue(lines[k], prefix)
    requires forall j :: 0 <= j < k ==> !HasValue(lines[j], prefix)
    ensures FirstValue(lines, prefix) == lines[k][|prefix|..]
  {
    var p := lines[..|lines| - 1];
    assert forall j :: 0 <= j < |p| ==> p[j] == lines[j];
    if k == |lines| - 1 {
      FirstValueEmpty(p, prefix);
    } else {
      FirstValueIsFirst(p, prefix, k);
    }
  }

  /** The words of a `Keywords=` line; none for any other line. */
  function LineTokens(l: string): seq<string>
  {
    if "Keywords=" <= l then GetlineSplit(l[9..], ' ') else []
  }

  /** The words of every `Keywords=` line, in file order. */
  function KeywordTokens(lines: seq<string>): seq<string>
  {
    if lines == [] then [] else KeywordTokens(lines[..|lines| - 1]) + LineTokens(lines[|lines| - 1])
  }

  /** The `Keywords=` words the scan pushes: those of lines read while
      `cmd` was still empty after the line's own `Exec=` test. */
  function PendingTokens(lines: seq<string>): seq<string>
  {
    if lines == [] then []
    else
      PendingTokens(lines[..|lines| - 1]) +
      (if FirstValue(lines, "Exec=") == "" then LineTokens(lines[|lines| - 1]) else [])
  }

  /** Only the `Keywords=` lines before the first non-empty `Exec=` line
      contribute keywords (`k` is that line's index, or the line count). */
  lemma {:induction false} PendingTokensBeforeCommand(lines: seq<string>, k: nat)
    requires k <= |lines|
    requires forall j :: 0 <= j < k ==> !HasValue(lines[j], "Exec=")
    requires k == |lines| || HasValue(lines[k], "Exec=")
    ensures PendingTokens(lines) == KeywordTokens(lines[..k])
  {
    if lines != [] {
      var n := |lines|;
      var p, l := lines[..n - 1], lines[n - 1];
      assert forall j :: 0 <= j < |p| ==> p[j] == lines[j];
      if k == n {
        FirstValueEmpty(lines, "Exec=");
        PendingTokensBeforeCommand(p, n - 1);
        assert p[..n - 1] == p;
        assert lines[..k] == lines;
        assert KeywordTokens(lines) == KeywordTokens(p) + LineTokens(l);
      } else {
        FirstValueIsFirst(lines, "Exec=", k);
        assert PendingTokens(lines) == PendingTokens(p);
        PendingTokensBeforeCommand(p, k);
        assert p[..k] == lines[..k];
      }
    }
  }

  /** The `Application` built from one file (`getApplications`, one
      iteration of its directory loop): the first non-empty `Name=`,
      `GenericName=`, `Comment=` and `Exec=` values, and as keywords the
      pending `Keywords=` words (weight 1), then the words of the name
      (weight 1000), then the words of `genericName + ' ' + comment`
      (weight 1). */
  function IndexEntry(id: string, lines: seq<string>, readKeywords: bool): Application
  {
    var name := FirstValue(lines, "Name=");
    var genericName := FirstValue(lines, "GenericName=");
    var comment := FirstValue(lines, "Comment=");
    var pending := if readKeywords then PendingTokens(lines) else [];
    Application(id, name, genericName, comment, FirstValue(lines, "Exec="),
      Weighted(pending, OtherWeight) +
      Weighted(GetlineSplit(name, ' '), NameWeight) +
      Weighted(GetlineSplit(genericName + " " + comment, ' '), OtherWeight),
      0)
  }

  /** Every keyword is lowercase and weighs 1 or 1000. */
  predicate LowerWeighted(ks: seq<Keyword>)
  {
    forall k :: 0 <= k < |ks| ==>
      NoUpper(ks[k].word) && (ks[k].weight == OtherWeight || ks[k].weight == NameWeight)
  }

  lemma {:induction false} WeightedLowercase(ws: seq<string>, weight: int)
    requires weight == OtherWeight || weight == NameWeight
    ensures LowerWeighted(Weighted(ws, weight))
  {
    WeightedAt(ws, weight);
    forall k | 0 <= k < |ws| ensures NoUpper(Weighted(ws, weight)[k].word) {
      LowerNormalises(ws[k]);
    }
  }

  lemma {:induction false} LowerWeightedAppend(a: seq<Keyword>, b: seq<Keyword>)
    requires LowerWeighted(a) && LowerWeighted(b)
    ensures LowerWeighted(a + b)
  {
    forall k | 0 <= k < |a + b|
      ensures NoUpper((a + b)[k].word) && ((a + b)[k].weight == OtherWeight || (a + b)[k].weight == NameWeight)
    {
      if k < |a| { assert (a + b)[k] == a[k]; } else { assert (a + b)[k] == b[k - |a|]; }
    }
  }

  /** The order and weights of an entry's keywords: the words of the
      `Keywords=` lines before the first non-empty `Exec=` line (launcher.cpp
      only), then the name words with weight 1000, then the generic-name and
      comment words with weight 1. */
  lemma {:induction false} IndexEntryKeywords(id: string, lines: seq<string>, readKeywords: bool, k: nat)
    requires k <= |lines|
    requires forall j :: 0 <= j < k ==> !HasValue(lines[j], "Exec=")
    requires k == |lines| || HasValue(lines[k], "Exec=")
    ensures var app := IndexEntry(id, lines, readKeywords);
      app.keywords ==
        Weighted(if readKeywords then KeywordTokens(lines[..k]) else [], 1) +
        Weighted(GetlineSplit(app.name, ' '), 1000) +
        Weighted(GetlineSplit(app.genericName + " " + app.comment, ' '), 1)
  {
    PendingTokensBeforeCommand(lines, k);
  }

  /** Every keyword of an entry is lowercase and weighs 1 or 1000. */
  lemma {:induction false} IndexEntryWordsLowercase(id: string, lines: seq<string>, readKeywords: bool)
    ensures LowerWeighted(IndexEntry(id, lines, readKeywords).keywords)
  {
    var app := IndexEntry(id, lines, readKeywords);
    var a := Weighted(if readKeywords then PendingTokens(lines) else [], OtherWeight);
    var b := Weighted(GetlineSplit(app.name, ' '), NameWeight);
    var c := Weighted(GetlineSplit(app.genericName + " " + app.comment, ' '), OtherWeight);
    WeightedLowercase(if readKeywords then PendingTokens(lines) else [], OtherWeight);
    WeightedLowercase(GetlineSplit(app.name, ' '), NameWeight);
    WeightedLowercase(GetlineSplit(app.genericName + " " + app.comment, ' '), OtherWeight);
    LowerWeightedAppend(a, b);
    LowerWeightedAppend(a + b, c);
  }

  /** What the line loop of `getApplications` has read so far: the four
      fields and the `Keywords=` words pushed. */
  datatype ScanState = ScanState(name: string, genericName: string, comment: string, cmd: string,
                                 pending: seq<string>)

  /** One iteration of the line loop. */
  function ScanLine(st: ScanState, line: string, readKeywords: bool): ScanState
  {
    var name := if st.name == "" && "Name=" <= line then line[5..] else st.name;
    var genericName := if st.genericName == "" && "GenericName=" <= line then line[12..] else st.genericName;
    var comment := if st.comment == "" && "Comment=" <= line then line[8..] else st.comment;
    var cmd := if st.cmd == "" && "Exec=" <= line && line[5..] != "" then line[5..] else st.cmd;
    var pending := if readKeywords && cmd == "" && "Keywords=" <= line
                   then st.pending + GetlineSplit(line[9..], ' ') else st.pending;
    ScanState(name, genericName, comment, cmd, pending)
  }

  /** The line loop over the first lines. */
  function ScanLines(lines: seq<string>, readKeywords: bool): ScanState
  {
    if lines == [] then ScanState("", "", "", "", [])
    else ScanLine(ScanLines(lines[..|lines| - 1], readKeywords), lines[|lines| - 1], readKeywords)
  }

  lemma {:induction false} ScanStep(lines: seq<string>, i: nat, readKeywords: bool)
    requires i < |lines|
    ensures ScanLines(lines[..i + 1], readKeywords) == ScanLine(ScanLines(lines[..i], readKeywords), lines[i], readKeywords)
  {
    assert lines[..i + 1][..i] == lines[..i];
  }

  /** The loop's state is the fields' first values and the pending words. */
  lemma {:induction false} ScanLinesFields(lines: seq<string>, readKeywords: bool)
    ensures var st := ScanLines(lines, readKeywords);
      && st.name == FirstValue(lines, "Name=")
      && st.genericName == FirstValue(lines, "GenericName=")
      && st.comment == FirstValue(lines, "Comment=")
      && st.cmd == FirstValue(lines, "Exec=")
      && st.pending == if readKeywords then PendingTokens(lines) else []
  {
    if lines != [] {
      ScanLinesFields(lines[..|lines| - 1], readKeywords);
    }
  }

  /** The fields and keywords the line loop ends with, and the name and
      description words after them, make up the entry. */
  lemma {:induction false} EntryOfScan(id: string, lines: seq<string>, readKeywords: bool, st: ScanState, app: Application)
    requires st == ScanLines(lines, readKeywords)
    requires app == Application(id, st.name, st.genericName, st.comment, st.cmd,
      Weighted(st.pending, 1) + Weighted(GetlineSplit(st.name, ' '), 1000) +
      Weighted(GetlineSplit(st.genericName + " " + st.comment, ' '), 1), 0)
    ensures app == IndexEntry(id, lines, readKeywords)
  {
    ScanLinesFields(lines, readKeywords);
  }

  /** The per-file loop of `getApplications`: every line is tested against
      the four field prefixes (and `Keywords=` when `readKeywords`), then the
      name and description words are pushed. */
  method ReadEntry(id: string, lines: seq<string>, readKeywords: bool) returns (app: Application)
    ensures app == IndexEntry(id, lines, readKeywords)
  {
    var name, genericName, comment, cmd := "", "", "", "";
    var keywords: seq<Keyword> := [];
    ghost var pending: seq<string> := [];
    var i := 0;
    assert lines[..0] == [];
    while i < |lines|
      invariant 0 <= i <= |lines|
      invariant ScanState(name, genericName, comment, cmd, pending) == ScanLines(lines[..i], readKeywords)
      invariant keywords == Weighted(pending, 1)
    {
      ScanStep(lines, i, readKeywords);
      name, genericName, comment, cmd, keywords, pending :=
        ReadEntryLine(name, genericName, comment, cmd, keywords, pending, lines[i], readKeywords);
      i := i + 1;
    }
    assert lines[..i] == lines;
    ghost var scanned := ScanState(name, genericName, comment, cmd, pending);
    keywords := AppendTokens(keywords, name, 1000);
    keywords := AppendTokens(keywords, genericName + " " + comment, 1);
    app := Application(id, name, genericName, comment, cmd, keywords, 0);
    EntryOfScan(id, lines, readKeywords, scanned, app);
  }

  /** The body of the line loop of `getApplications`. */
  method ReadEntryLine(name: string, genericName: string, comment: string, cmd: string,
                       keywords: seq<Keyword>, ghost pending: seq<string>, line: string, readKeywords: bool)
    returns (name': string, genericName': string, comment': string, cmd': string,
             keywords': seq<Keyword>, ghost pending': seq<string>)
    requires keywords == Weighted(pending, 1)
    ensures ScanState(name', genericName', comment', cmd', pending') ==
      ScanLine(ScanState(name, genericName, comment, cmd, pending), line, readKeywords)
    ensures keywords' == Weighted(pending', 1)
  {
    name', genericName', comment', cmd', keywords', pending' := name, genericName, comment, cmd, keywords, pending;
    if name' == "" && "Name=" <= line {
      name' := line[5..];
    }
    if genericName' == "" && "GenericName=" <= line {
      genericName' := line[12..];
    }
    if comment' == "" && "Comment=" <= line {
      comment' := line[8..];
    }
    if cmd' == "" && "Exec=" <= line && line[5..] != "" {
      cmd' := line[5..];
    }
    if readKeywords && cmd' == "" && "Keywords=" <= line {
      keywords' := AppendTokens(keywords', line[9..], 1);
      WeightedAppend(pending', GetlineSplit(line[9..], ' '), 1);
      pending' := pending' + GetlineSplit(line[9..], ' ');
    }
  }

  // ------------------------------------------------------ keyword search

  function FirstMatchFrom(lquery: string, kws: seq<Keyword>, i: nat): (r: Option<nat>)
    requires i <= |kws|
    decreases |kws| - i
    ensures r.Some? ==> i <= r.value < |kws| && Contains(kws[r.value].word, lquery)
    ensures r.Some? ==> forall j :: i <= j < r.value ==> !Contains(kws[j].word, lquery)
    ensures r.None? ==> forall j :: i <= j < |kws| ==> !Contains(kws[j].word, lquery)
  {
    if i == |kws| then None
    else if Contains(kws[i].word, lquery) then Some(i)
    else FirstMatchFrom(lquery, kws, i + 1)
  }

  /** The index of the first keyword whose word contains the query,
      where the scoring loops `break`. */
  function FirstMatch(lquery: string, kws: seq<Keyword>): (r: Option<nat>)
    ensures r.Some? ==> r.value < |kws| && Contains(kws[r.value].word, lquery)
    ensures r.Some? ==> forall j :: 0 <= j < r.value ==> !Contains(kws[j].word, lquery)
    ensures r.None? <==> forall j :: 0 <= j < |kws| ==> !Contains(kws[j].word, lquery)
  {
    FirstMatchFrom(lquery, kws, 0)
  }
}
