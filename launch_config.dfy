/** launcher.cpp's persisted state and its launch step: `writeConfig` (the
    lines of the config file), `readConfig` (colours and launch counts read
    back, with `std::stoi` on the counts), and the argument vector `launch`
    hands to `execvp`.  The config file is its lines, each followed by
    `\n`, and is read back with `getline`. */
module LaunchConfig {
  import opened Options
  import opened Text
  import opened Catalog

  const Int32Max := 0x7fff_ffff
  const Int32Min := -0x8000_0000

  /** The five colour strings of the `[Style]` section. */
  datatype Style = Style(titleColor: string, commentColor: string, backgroundColor: string,
                         highlightColor: string, matchColor: string)

  const DefaultStyle := Style("#111111", "#999999", "#ffffff", "#f8c291", "#111111")

  const StyleKeys: set<string> := {"title", "comment", "background", "highlight", "match"}

  // ------------------------------------------------- integers as text

  predicate IsDigit(c: char) { '0' <= c <= '9' }

  function DigitChar(d: nat): (c: char)
    requires d < 10
    ensures IsDigit(c) && c as int - '0' as int == d
  {
    ('0' as int + d) as char
  }

  /** `outfile << n` for a non-negative `int`: decimal digits, no sign and
      no leading zero. */
  function Decimal(n: nat): (r: string)
    ensures |r| >= 1 && forall i :: 0 <= i < |r| ==> IsDigit(r[i])
    ensures n > 0 ==> r[0] != '0'
  {
    if n < 10 then [DigitChar(n)] else Decimal(n / 10) + [DigitChar(n % 10)]
  }

  /** The number a string of decimal digits denotes. */
  function DigitsValue(ds: string): int
    requires forall i :: 0 <= i < |ds| ==> IsDigit(ds[i])
  {
    if ds == [] then 0
    else DigitsValue(ds[..|ds| - 1]) * 10 + (ds[|ds| - 1] as int - '0' as int)
  }

  lemma {:induction false} DecimalValue(n: nat)
    ensures DigitsValue(Decimal(n)) == n
  {
    if n >= 10 {
      DecimalValue(n / 10);
      var r := Decimal(n);
      assert r[..|r| - 1] == Decimal(n / 10);
    }
  }

  /** The whitespace `std::isspace` accepts in the C locale. */
  predicate IsCSpace(c: char) { c == ' ' || 9 <= c as int <= 13 }

  function SkipSpaces(s: string): (r: string)
    ensures r <= s || (|r| <= |s| && r == s[|s| - |r|..])
    ensures r == [] || !IsCSpace(r[0])
  {
    if s != [] && IsCSpace(s[0]) then SkipSpaces(s[1..]) else s
  }

  /** The longest prefix of digits. */
  function DigitRun(s: string): (r: string)
    ensures r <= s && forall i :: 0 <= i < |r| ==> IsDigit(r[i])
    ensures |r| < |s| ==> !IsDigit(s[|r|])
  {
    if s != [] && IsDigit(s[0]) then [s[0]] + DigitRun(s[1..]) else []
  }

  /** `std::stoi(s)`: leading whitespace, an optional sign, then the longest
      run of digits; `None` where it throws (`invalid_argument` when there
      is no digit, `out_of_range` outside the `int` range).  Text after the
      digits is ignored. */
  function Stoi(s: string): Option<int>
  {
    var t := SkipSpaces(s);
    var neg := t != [] && t[0] == '-';
    var u := if t != [] && (t[0] == '-' || t[0] == '+') then t[1..] else t;
    var ds := DigitRun(u);
    if ds == [] then None
    else
      var v := if neg then -DigitsValue(ds) else DigitsValue(ds);
      if v < Int32Min || v > Int32Max then None else Some(v)
  }

  lemma {:induction false} DigitRunOfDigits(s: string)
    requires forall i :: 0 <= i < |s| ==> IsDigit(s[i])
    ensures DigitRun(s) == s
  {
    if s != [] {
      DigitRunOfDigits(s[1..]);
    }
  }

  /** `stoi` reads back every count that `writeConfig` prints. */
  lemma {:induction false} StoiDecimal(n: nat)
    requires n <= Int32Max
    ensures Stoi(Decimal(n)) == Some(n)
  {
    var r := Decimal(n);
    assert SkipSpaces(r) == r;
    DigitRunOfDigits(r);
    DecimalValue(n);
  }

  // ------------------------------------------------------ writeConfig

  function StyleLine(key: string, value: string, default: string): seq<string>
  {
    if value != default then [key + "=" + value] else []
  }

  /** The `[Style]` section: one `key=colour` line per colour that is not
      its default, in the order title, comment, match, background, highlight. */
  function StyleLines(s: Style): seq<string>
  {
    ["[Style]"] +
    StyleLine("title", s.titleColor, DefaultStyle.titleColor) +
    StyleLine("comment", s.commentColor, DefaultStyle.commentColor) +
    StyleLine("match", s.matchColor, DefaultStyle.matchColor) +
    StyleLine("background", s.backgroundColor, DefaultStyle.backgroundColor) +
    StyleLine("highlight", s.highlightColor, DefaultStyle.highlightColor)
  }

  function CountLine(app: Application): seq<string>
  {
    if app.count > 0 then [app.id + "=" + Decimal(app.count)] else []
  }

  /** One `id=count` line per application with a positive count, in
      catalog order. */
  function CountLines(apps: seq<Application>): seq<string>
  {
    if apps == [] then [] else CountLines(apps[..|apps| - 1]) + CountLine(apps[|apps| - 1])
  }

  /** The lines `writeConfig` writes. */
  function ConfigLines(s: Style, apps: seq<Application>): seq<string>
  {
    StyleLines(s) + ["", "[Application Launch Counts]"] + CountLines(apps)
  }

  /** Default colours are not written, nor are zero counts: a fresh
      configuration is the two section headers and a blank line. */
  lemma {:induction false} DefaultsAreNotWritten(apps: seq<Application>)
    requires forall i :: 0 <= i < |apps| ==> apps[i].count <= 0
    ensures ConfigLines(DefaultStyle, apps) == ["[Style]", "", "[Application Launch Counts]"]
  {
    NoCountLines(apps);
  }

  lemma {:induction false} NoCountLines(apps: seq<Application>)
    requires forall i :: 0 <= i < |apps| ==> apps[i].count <= 0
    ensures CountLines(apps) == []
  {
    if apps != [] {
      NoCountLines(apps[..|apps| - 1]);
    }
  }

  // ------------------------------------------------------- readConfig

  /** The state `readConfig` changes: the colours and the applications'
      counts. */
  datatype Config = Config(style: Style, apps: seq<Application>)

  /** The first application with the given id, where the loop `break`s. */
  function FirstWithId(apps: seq<Application>, key: string): (r: Option<nat>)
    ensures r.Some? ==> r.value < |apps| && apps[r.value].id == key
    ensures r.Some? ==> forall j :: 0 <= j < r.value ==> apps[j].id != key
    ensures r.None? ==> forall j :: 0 <= j < |apps| ==> apps[j].id != key
  {
    if apps == [] then None
    else if apps[0].id == key then Some(0)
    else match FirstWithId(apps[1..], key)
      case None => None
      case Some(k) => Some(k + 1)
  }

  /** One line of `readConfig`: used only when its first `=` is at a
      position above 0; a colour key sets that colour, any other key sets
      the count of the first application with that id, and `None` is the
      exception `stoi` throws on a count it cannot read. */
  function ApplyLine(c: Config, line: string): Option<Config>
  {
    match Find(line, "=")
    case None => Some(c)
    case Some(i) => if i == 0 then Some(c) else ApplyPair(c, line[..i], line[i + 1..])
  }

  /** The effect of a `key=value` pair with a non-empty key. */
  function ApplyPair(c: Config, key: string, value: string): Option<Config>
  {
    if key == "title" then Some(c.(style := c.style.(titleColor := value)))
    else if key == "comment" then Some(c.(style := c.style.(commentColor := value)))
    else if key == "background" then Some(c.(style := c.style.(backgroundColor := value)))
    else if key == "highlight" then Some(c.(style := c.style.(highlightColor := value)))
    else if key == "match" then Some(c.(style := c.style.(matchColor := value)))
    else match FirstWithId(c.apps, key)
      case None => Some(c)
      case Some(k) =>
        match Stoi(value)
        case None => None
        case Some(n) => Some(c.(apps := c.apps[k := c.apps[k].(count := n)]))
  }

  /** All lines in order; later lines override earlier ones. */
  function ReadLines(c: Config, lines: seq<string>): Option<Config>
  {
    if lines == [] then Some(c)
    else match ReadLines(c, lines[..|lines| - 1])
      case None => None
      case Some(c') => ApplyLine(c', lines[|lines| - 1])
  }

  lemma {:induction false} ReadLinesAppend(c: Config, a: seq<string>, b: seq<string>)
    ensures ReadLines(c, a + b) ==
      match ReadLines(c, a) case None => None case Some(c') => ReadLines(c', b)
    decreases |b|
  {
    if b == [] {
      assert a + b == a;
    } else {
      assert (a + b)[..|a + b| - 1] == a + b[..|b| - 1];
      ReadLinesAppend(c, a, b[..|b| - 1]);
    }
  }

  /** The first `=` of `key=value` is the one after the key when the key has none. */
  lemma {:induction false} FindEquals(key: string, value: string)
    requires '=' !in key
    ensures Find(key + "=" + value, "=") == Some(|key|)
  {
    var line := key + "=" + value;
    assert OccursAt(line, "=", |key|) by { assert line[|key|..|key| + 1] == "="; }
    forall j | 0 <= j < |key| ensures !OccursAt(line, "=", j) {
      assert line[j..j + 1] == [key[j]];
    }
  }

  lemma {:induction false} ReadKeyValue(c: Config, key: string, value: string)
    requires key != "" && '=' !in key
    ensures ApplyLine(c, key + "=" + value) == ApplyPair(c, key, value)
  {
    FindEquals(key, value);
    var line := key + "=" + value;
    assert line[..|key|] == key && line[|key| + 1..] == value;
  }

  /** A line without `=` changes nothing. */
  lemma {:induction false} ReadPlainLine(c: Config, line: string)
    requires '=' !in line
    ensures ApplyLine(c, line) == Some(c)
  {
    forall i | 0 <= i < |line| ensures !OccursAt(line, "=", i) {
      assert i + 1 > |line| || line[i..i + 1] == [line[i]];
    }
  }

  /** Reading a colour line sets that colour (or keeps the default when the
      line was not written). */
  lemma {:induction false} ReadStyleLine(c: Config, key: string, value: string, default: string)
    requires key in StyleKeys
    ensures ReadLines(c, StyleLine(key, value, default)) ==
      if value == default then Some(c) else ApplyPair(c, key, value)
  {
    if value != default {
      var line := key + "=" + value;
      assert StyleLine(key, value, default) == [line];
      ReadOneLine(c, line);
      StyleKeyShape(key);
      ReadKeyValue(c, key, value);
    }
  }

  lemma {:induction false} ReadOneLine(c: Config, line: string)
    ensures ReadLines(c, [line]) == ApplyLine(c, line)
  {
    assert [line][..0] == [];
  }

  lemma {:induction false} StyleKeyShape(key: string)
    requires key in StyleKeys
    ensures key != "" && '=' !in key
  {
    assert key == "title" || key == "comment" || key == "background" || key == "highlight" || key == "match";
  }

  lemma {:induction false} ReadStyleLines(apps: seq<Application>, s: Style)
    ensures ReadLines(Config(DefaultStyle, apps), StyleLines(s)) == Some(Config(s, apps))
  {
    var c0 := Config(DefaultStyle, apps);
    var l0 := ["[Style]"];
    var l1 := StyleLine("title", s.titleColor, DefaultStyle.titleColor);
    var l2 := StyleLine("comment", s.commentColor, DefaultStyle.commentColor);
    var l3 := StyleLine("match", s.matchColor, DefaultStyle.matchColor);
    var l4 := StyleLine("background", s.backgroundColor, DefaultStyle.backgroundColor);
    var l5 := StyleLine("highlight", s.highlightColor, DefaultStyle.highlightColor);
    ReadPlainLine(c0, "[Style]");
    assert l0[..0] == [];
    assert ReadLines(c0, l0) == Some(c0);
    var c1 := c0.(style := c0.style.(titleColor := s.titleColor));
    ReadLinesAppend(c0, l0, l1);
    ReadStyleLine(c0, "title", s.titleColor, DefaultStyle.titleColor);
    var c2 := c1.(style := c1.style.(commentColor := s.commentColor));
    ReadLinesAppend(c0, l0 + l1, l2);
    ReadStyleLine(c1, "comment", s.commentColor, DefaultStyle.commentColor);
    var c3 := c2.(style := c2.style.(matchColor := s.matchColor));
    ReadLinesAppend(c0, l0 + l1 + l2, l3);
    ReadStyleLine(c2, "match", s.matchColor, DefaultStyle.matchColor);
    var c4 := c3.(style := c3.style.(backgroundColor := s.backgroundColor));
    ReadLinesAppend(c0, l0 + l1 + l2 + l3, l4);
    ReadStyleLine(c3, "background", s.backgroundColor, DefaultStyle.backgroundColor);
    var c5 := c4.(style := c4.style.(highlightColor := s.highlightColor));
    ReadLinesAppend(c0, l0 + l1 + l2 + l3 + l4, l5);
    ReadStyleLine(c4, "highlight", s.highlightColor, DefaultStyle.highlightColor);
    assert c5 == Config(s, apps);
  }

  /** Ids that survive the `key=value` format: non-empty, without `=`, not
      a colour key, pairwise distinct; and counts that `stoi` can read. */
  ghost predicate Storable(apps: seq<Application>)
  {
    && (forall i :: 0 <= i < |apps| ==>
          apps[i].id != "" && '=' !in apps[i].id && apps[i].id !in StyleKeys && 0 <= apps[i].count <= Int32Max)
    && (forall i, j :: 0 <= i < j < |apps| ==> apps[i].id != apps[j].id)
  }

  /** The catalog as `getApplications` leaves it: every count 0. */
  function WithoutCounts(apps: seq<Application>): (r: seq<Application>)
    ensures |r| == |apps|
    ensures forall i :: 0 <= i < |apps| ==> r[i] == apps[i].(count := 0)
  {
    seq(|apps|, i requires 0 <= i < |apps| => apps[i].(count := 0))
  }

  /** The first `j` applications with their counts, the rest at 0. */
  function Restored(apps: seq<Application>, j: nat): (r: seq<Application>)
    ensures |r| == |apps|
    ensures forall i :: 0 <= i < |apps| ==> r[i] == if i < j then apps[i] else apps[i].(count := 0)
  {
    seq(|apps|, i requires 0 <= i < |apps| => if i < j then apps[i] else apps[i].(count := 0))
  }

  ghost predicate DistinctIds(apps: seq<Application>)
  {
    forall i, j :: 0 <= i < j < |apps| ==> apps[i].id != apps[j].id
  }

  lemma {:induction false} FirstWithDistinctId(apps: seq<Application>, k: nat)
    requires DistinctIds(apps) && k < |apps|
    ensures FirstWithId(apps, apps[k].id) == Some(k)
  {
    var r := FirstWithId(apps, apps[k].id);
    assert r.Some?;
  }

  /** The line written for the `j`-th application restores its count. */
  lemma {:induction false} ReadCountStep(s: Style, apps: seq<Application>, j: nat)
    requires Storable(apps) && 0 < j <= |apps|
    ensures ReadLines(Config(s, Restored(apps, j - 1)), CountLine(apps[j - 1])) == Some(Config(s, Restored(apps, j)))
  {
    var a := apps[j - 1];
    var before := Config(s, Restored(apps, j - 1));
    if a.count > 0 {
      RestoredKeepsIds(apps, j - 1);
      FirstWithDistinctId(before.apps, j - 1);
      assert before.apps[j - 1].id == a.id;
      ReadCountLine(before, a, j - 1);
      assert before.apps[j - 1 := before.apps[j - 1].(count := a.count)] == Restored(apps, j);
    } else {
      assert Restored(apps, j - 1) == Restored(apps, j);
    }
  }

  /** A positive count line sets the count of the first application with that id. */
  lemma {:induction false} ReadCountLine(c: Config, a: Application, k: nat)
    requires k < |c.apps| && FirstWithId(c.apps, a.id) == Some(k)
    requires a.id != "" && '=' !in a.id && a.id !in StyleKeys && 0 < a.count <= Int32Max
    ensures ReadLines(c, CountLine(a)) == Some(c.(apps := c.apps[k := c.apps[k].(count := a.count)]))
  {
    var v := Decimal(a.count);
    var line := a.id + "=" + v;
    assert CountLine(a) == [line];
    StoiDecimal(a.count);
    assert ApplyPair(c, a.id, v) == Some(c.(apps := c.apps[k := c.apps[k].(count := a.count)])) by {
      assert a.id != "title" && a.id != "comment" && a.id != "background" && a.id != "highlight" && a.id != "match";
    }
    ReadKeyValue(c, a.id, v);
    ReadOneLine(c, line);
  }

  lemma {:induction false} RestoredKeepsIds(apps: seq<Application>, j: nat)
    requires DistinctIds(apps)
    ensures DistinctIds(Restored(apps, j))
  {
    var r := Restored(apps, j);
    forall i, i' | 0 <= i < i' < |r| ensures r[i].id != r[i'].id {
      assert r[i].id == apps[i].id && r[i'].id == apps[i'].id;
    }
  }

  lemma {:induction false} ReadCountLines(s: Style, apps: seq<Application>, j: nat)
    requires Storable(apps) && j <= |apps|
    ensures ReadLines(Config(s, WithoutCounts(apps)), CountLines(apps[..j])) == Some(Config(s, Restored(apps, j)))
  {
    if j == 0 {
      assert Restored(apps, 0) == WithoutCounts(apps);
    } else {
      assert apps[..j][..j - 1] == apps[..j - 1];
      assert CountLines(apps[..j]) == CountLines(apps[..j - 1]) + CountLine(apps[j - 1]);
      ReadCountLines(s, apps, j - 1);
      ReadLinesAppend(Config(s, WithoutCounts(apps)), CountLines(apps[..j - 1]), CountLine(apps[j - 1]));
      ReadCountStep(s, apps, j);
    }
  }

  /** Reading the lines `writeConfig` writes, into a freshly loaded catalog
      with default colours, restores every colour and every launch count. */
  lemma {:induction false} ReadWrittenLines(s: Style, apps: seq<Application>)
    requires Storable(apps)
    ensures ReadLines(Config(DefaultStyle, WithoutCounts(apps)), ConfigLines(s, apps)) == Some(Config(s, apps))
  {
    var z := WithoutCounts(apps);
    var c0, cs := Config(DefaultStyle, z), Config(s, z);
    var header := ["", "[Application Launch Counts]"];
    var front := StyleLines(s) + header;
    ReadStyleLines(z, s);
    ReadHeader(cs);
    ReadLinesAppend(c0, StyleLines(s), header);
    assert ReadLines(c0, front) == Some(cs);
    assert ConfigLines(s, apps) == front + CountLines(apps);
    ReadLinesAppend(c0, front, CountLines(apps));
    ReadCountLines(s, apps, |apps|);
    assert apps[..|apps|] == apps;
    assert Restored(apps, |apps|) == apps;
  }

  /** The blank line and the second section header change nothing. */
  lemma {:induction false} ReadHeader(c: Config)
    ensures ReadLines(c, ["", "[Application Launch Counts]"]) == Some(c)
  {
    var header := ["", "[Application Launch Counts]"];
    assert header[..1] == [""];
    ReadOneLine(c, "");
    ReadPlainLine(c, "");
    ReadPlainLine(c, "[Application Launch Counts]");
  }

  /** The catalog after `applications[k].count++`. */
  function Bumped(apps: seq<Application>, k: nat): seq<Application>
    requires k < |apps|
  {
    apps[k := apps[k].(count := apps[k].count + 1)]
  }

  // ------------------------------------------------- the file as text

  /** The text `writeConfig` writes: every line followed by `\n`. */
  function ConfigText(s: Style, apps: seq<Application>): string
  {
    Terminated(ConfigLines(s, apps), '\n')
  }

  /** No colour and no id holds a line break, so every written line stays
      one line of the file. */
  ghost predicate NewlineFree(s: Style, apps: seq<Application>)
  {
    && '\n' !in s.titleColor && '\n' !in s.commentColor && '\n' !in s.backgroundColor
    && '\n' !in s.highlightColor && '\n' !in s.matchColor
    && forall i :: 0 <= i < |apps| ==> '\n' !in apps[i].id
  }

  lemma {:induction false} CountLinesNewlineFree(apps: seq<Application>)
    requires forall i :: 0 <= i < |apps| ==> '\n' !in apps[i].id
    ensures forall k :: 0 <= k < |CountLines(apps)| ==> '\n' !in CountLines(apps)[k]
  {
    if apps != [] {
      var init := apps[..|apps| - 1];
      CountLinesNewlineFree(init);
      var a := apps[|apps| - 1];
      if a.count > 0 {
        var line := a.id + "=" + Decimal(a.count);
        forall j | 0 <= j < |line| ensures line[j] != '\n' {
          if j > |a.id| { assert line[j] == Decimal(a.count)[j - |a.id| - 1]; }
        }
      }
    }
  }

  lemma {:induction false} ConfigLinesNewlineFree(s: Style, apps: seq<Application>)
    requires NewlineFree(s, apps)
    ensures forall k :: 0 <= k < |ConfigLines(s, apps)| ==> '\n' !in ConfigLines(s, apps)[k]
  {
    CountLinesNewlineFree(apps);
    StyleLinesNewlineFree(s);
    var lines := ConfigLines(s, apps);
    var st, cl := StyleLines(s), CountLines(apps);
    forall k | 0 <= k < |lines| ensures '\n' !in lines[k] {
      if k < |st| { assert lines[k] == st[k]; }
      else if k >= |st| + 2 { assert lines[k] == cl[k - |st| - 2]; }
    }
  }

  lemma {:induction false} StyleLinesNewlineFree(s: Style)
    requires '\n' !in s.titleColor && '\n' !in s.commentColor && '\n' !in s.backgroundColor
    requires '\n' !in s.highlightColor && '\n' !in s.matchColor
    ensures forall k :: 0 <= k < |StyleLines(s)| ==> '\n' !in StyleLines(s)[k]
  {
    StyleLineNewlineFree("title", s.titleColor, DefaultStyle.titleColor);
    StyleLineNewlineFree("comment", s.commentColor, DefaultStyle.commentColor);
    StyleLineNewlineFree("match", s.matchColor, DefaultStyle.matchColor);
    StyleLineNewlineFree("background", s.backgroundColor, DefaultStyle.backgroundColor);
    StyleLineNewlineFree("highlight", s.highlightColor, DefaultStyle.highlightColor);
    var st := StyleLines(s);
    forall k | 0 <= k < |st| ensures '\n' !in st[k] {}
  }

  lemma {:induction false} StyleLineNewlineFree(key: string, value: string, default: string)
    requires '\n' !in key && '\n' !in value
    ensures forall k :: 0 <= k < |StyleLine(key, value, default)| ==> '\n' !in StyleLine(key, value, default)[k]
  {
    if value != default {
      var line := key + "=" + value;
      forall j | 0 <= j < |line| ensures line[j] != '\n' {
        if j > |key| { assert line[j] == value[j - |key| - 1]; }
      }
    }
  }

  /** Reading back, with `getline`, the file `writeConfig` wrote, into a
      freshly loaded catalog with default colours, restores every colour and
      every launch count. */
  lemma {:induction false} ConfigRoundTrip(s: Style, apps: seq<Application>)
    requires Storable(apps) && NewlineFree(s, apps)
    ensures ReadLines(Config(DefaultStyle, WithoutCounts(apps)), GetlineSplit(ConfigText(s, apps), '\n'))
      == Some(Config(s, apps))
  {
    ConfigLinesNewlineFree(s, apps);
    GetlineOfTerminated(ConfigLines(s, apps), '\n');
    ReadWrittenLines(s, apps);
  }

  /** The catalog reads back without the count of an application whose id
      holds a line break: `a\nb=3` is two lines, `a` without `=` and `b=3`
      naming no application. */
  lemma {:induction false} NewlineInIdLosesCount(a: Application)
    requires a.id == "a\nb" && a.count == 3
    ensures ReadLines(Config(DefaultStyle, WithoutCounts([a])), GetlineSplit(ConfigText(DefaultStyle, [a]), '\n'))
        == Some(Config(DefaultStyle, [a.(count := 0)]))
  {
    var read := ["[Style]", "", "[Application Launch Counts]", "a", "b=3"];
    NewlineIdText(a);
    GetlineOfTerminated(read, '\n');
    var z := Config(DefaultStyle, WithoutCounts([a]));
    assert z.apps == [a.(count := 0)];
    assert z.apps[0].id != "b";
    NewlineIdRead(z);
  }

  /** The file written for an application `a\nb` with count 3, as lines. */
  lemma {:induction false} NewlineIdText(a: Application)
    requires a.id == "a\nb" && a.count == 3
    ensures ConfigText(DefaultStyle, [a]) ==
      Terminated(["[Style]", "", "[Application Launch Counts]", "a", "b=3"], '\n')
  {
    var front := ["[Style]", "", "[Application Launch Counts]"];
    NewlineIdLine(a);
    NoStyleLines();
    assert "a" + ['\n'] + "b=3" == "a\nb=3";
    assert ConfigLines(DefaultStyle, [a]) == ["[Style]"] + ["", "[Application Launch Counts]"] + ["a\nb=3"];
    assert ConfigLines(DefaultStyle, [a]) == front + ["a" + ['\n'] + "b=3"];
    TerminatedBreak(front, "a", "b=3", '\n');
    assert front + ["a", "b=3"] == ["[Style]", "", "[Application Launch Counts]", "a", "b=3"];
  }

  lemma {:induction false} NewlineIdLine(a: Application)
    requires a.id == "a\nb" && a.count == 3
    ensures CountLines([a]) == ["a\nb=3"]
  {
    assert [a][..0] == [];
    assert DigitChar(3) == '3';
    assert Decimal(3) == "3";
    assert CountLine(a) == [a.id + "=" + "3"];
    assert a.id + "=" + "3" == "a\nb=3";
    assert CountLines([a]) == CountLines([]) + CountLine(a);
  }

  /** Writing a line that holds the delimiter writes the same text as
      writing its two halves. */
  lemma {:induction false} TerminatedBreak(ws: seq<string>, x: string, y: string, d: char)
    ensures Terminated(ws + [x + [d] + y], d) == Terminated(ws + [x, y], d)
  {
    var two := ws + [x, y];
    assert (ws + [x + [d] + y])[..|ws|] == ws;
    assert two[..|two| - 1] == ws + [x] && (ws + [x])[..|ws|] == ws;
    assert Terminated(ws + [x], d) == Terminated(ws, d) + x + [d];
  }

  /** Those lines change nothing when no application is called `b`. */
  lemma {:induction false} NewlineIdRead(z: Config)
    requires FirstWithId(z.apps, "b") == None
    ensures ReadLines(z, ["[Style]", "", "[Application Launch Counts]", "a", "b=3"]) == Some(z)
  {
    var front := ["[Style]", "", "[Application Launch Counts]"];
    assert ["[Style]", "", "[Application Launch Counts]", "a", "b=3"] == front + ["a", "b=3"];
    ReadLinesAppend(z, front, ["a", "b=3"]);
    ReadOpeningLines(z);
    NewlineIdTail(z);
  }

  lemma {:induction false} NewlineIdTail(z: Config)
    requires FirstWithId(z.apps, "b") == None
    ensures ReadLines(z, ["a", "b=3"]) == Some(z)
  {
    ReadPlainLine(z, "a");
    ReadTwoLines(z, "a", "b=3");
    ReadKeyValue(z, "b", "3");
  }

  /** After a line that changes nothing, the next line acts alone. */
  lemma {:induction false} ReadTwoLines(c: Config, x: string, y: string)
    requires ApplyLine(c, x) == Some(c)
    ensures ReadLines(c, [x, y]) == ApplyLine(c, y)
  {
    assert [x, y][..1] == [x];
    ReadOneLine(c, x);
  }

  /** The opening header, the blank line and the second header change nothing. */
  lemma {:induction false} ReadOpeningLines(c: Config)
    ensures ReadLines(c, ["[Style]", "", "[Application Launch Counts]"]) == Some(c)
  {
    var lines := ["[Style]", "", "[Application Launch Counts]"];
    assert lines[..2] == ["[Style]", ""] && lines[..2][..1] == ["[Style]"] && lines[..1][..0] == [];
    ReadPlainLine(c, "[Style]");
    assert ReadLines(c, lines[..1]) == Some(c);
    ReadPlainLine(c, "");
    assert ReadLines(c, lines[..2]) == Some(c);
    ReadPlainLine(c, "[Application Launch Counts]");
  }

  lemma {:induction false} NoStyleLines()
    ensures StyleLines(DefaultStyle) == ["[Style]"]
  {
  }

  /** After a launch bumps one count, the next start reads that count back
      one higher and every other count unchanged. */
  lemma {:induction false} LaunchIsRemembered(s: Style, apps: seq<Application>, k: nat)
    requires Storable(apps) && NewlineFree(s, apps) && k < |apps| && apps[k].count < Int32Max
    ensures var after := Bumped(apps, k);
      ReadLines(Config(DefaultStyle, WithoutCounts(apps)), GetlineSplit(ConfigText(s, after), '\n'))
        == Some(Config(s, after))
  {
    var after := Bumped(apps, k);
    assert WithoutCounts(after) == WithoutCounts(apps);
    assert Storable(after) && NewlineFree(s, after) by {
      forall i | 0 <= i < |after| ensures after[i].id == apps[i].id {}
    }
    ConfigRoundTrip(s, after);
  }

  // ------------------------------------------------------------ launch

  /** The words of the command that `launch` passes on: every `getline`
      word that does not start with `%` (`arg.find('%') != 0`); empty words
      are kept. */
  function DropPlaceholders(words: seq<string>): (r: seq<string>)
    ensures |r| <= |words|
    ensures forall k :: 0 <= k < |r| ==> !("%" <= r[k])
    ensures forall w :: w in r <==> w in words && !("%" <= w)
  {
    if words == [] then []
    else
      var w := words[|words| - 1];
      assert words == words[..|words| - 1] + [w];
      DropPlaceholders(words[..|words| - 1]) + (if "%" <= w then [] else [w])
  }

  /** The words are filtered one by one, in order: the arguments of a
      command are those of its first words followed by those of the rest. */
  lemma {:induction false} DropAppend(a: seq<string>, b: seq<string>)
    ensures DropPlaceholders(a + b) == DropPlaceholders(a) + DropPlaceholders(b)
    decreases |b|
  {
    if b == [] {
      assert a + b == a;
    } else {
      var p := b[..|b| - 1];
      assert (a + b)[..|a + b| - 1] == a + p;
      assert (a + b)[|a + b| - 1] == b[|b| - 1];
      DropAppend(a, p);
    }
  }

  /** A single word is dropped exactly when it starts with `%`. */
  lemma {:induction false} DropOne(w: string)
    ensures DropPlaceholders([w]) == if "%" <= w then [] else [w]
  {
    var ws := [w];
    assert ws[..0] == [];
  }

  function Argv(cmd: string): seq<string>
  {
    DropPlaceholders(GetlineSplit(cmd, ' '))
  }

  lemma {:induction false} DropNothing(words: seq<string>)
    requires forall k :: 0 <= k < |words| ==> !("%" <= words[k])
    ensures DropPlaceholders(words) == words
  {
    if words != [] {
      DropNothing(words[..|words| - 1]);
    }
  }

  /** A command without `%` placeholders is passed on word for word: the
      arguments joined by spaces give the command back (less one trailing
      space). */
  lemma {:induction false} ArgvOfPlainCommand(cmd: string)
    requires forall k :: 0 <= k < |cmd| ==> cmd[k] != '%'
    ensures Argv(cmd) == GetlineSplit(cmd, ' ')
    ensures cmd == [] || cmd[|cmd| - 1] != ' ' ==> Join(Argv(cmd), ' ') == cmd
  {
    var ws := GetlineSplit(cmd, ' ');
    forall k | 0 <= k < |ws| ensures !("%" <= ws[k]) {
      JoinPieceIsInfix(cmd, k);
      assert ws[k] != [] ==> ws[k][0] in cmd;
    }
    DropNothing(ws);
    GetlineSplitJoin(cmd, ' ');
  }

  /** Every character of a `getline` word comes from the text. */
  lemma {:induction false} JoinPieceIsInfix(cmd: string, k: nat)
    requires k < |GetlineSplit(cmd, ' ')|
    ensures forall c :: c in GetlineSplit(cmd, ' ')[k] ==> c in cmd
  {
    var ws := GetlineSplit(cmd, ' ');
    GetlineSplitJoin(cmd, ' ');
    JoinContains(ws, ' ', k);
  }

  lemma {:induction false} JoinContains(ws: seq<string>, d: char, k: nat)
    requires k < |ws|
    ensures forall c :: c in ws[k] ==> c in Join(ws, d)
  {
    if |ws| > 1 {
      if k < |ws| - 1 {
        JoinContains(ws[..|ws| - 1], d, k);
      }
    }
  }

  /** A trailing desktop-entry field code is not passed on: `firefox %u`
      runs `firefox`, and so does any command followed by ` %` and a code
      without spaces. */
  lemma {:induction false} ArgvDropsFieldCode(cmd: string, code: string)
    requires cmd != [] && cmd[|cmd| - 1] != ' ' && ' ' !in code
    ensures Argv(cmd + " %" + code) == Argv(cmd)
  {
    var arg := "%" + code;
    assert cmd + " %" + code == cmd + [' '] + arg;
    assert arg[|arg| - 1] != ' ';
    FullSplitConcat(cmd, arg, ' ');
    FullSplitSingle(arg, ' ');
    assert GetlineSplit(cmd + " %" + code, ' ') == GetlineSplit(cmd, ' ') + [arg];
    DropAppend(GetlineSplit(cmd, ' '), [arg]);
    DropOne(arg);
  }
}
