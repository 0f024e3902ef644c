/** src/programs.js: `getPrograms` builds one program per desktop file
    that has a command, with its launch count and up to 20 weighted
    keywords, and returns them most-launched first. */
module SrcPrograms {
  import opened Options
  import opened Text
  import opened Sorting
  import opened Catalog
  import opened DesktopEntry

  /** A desktop file: its path and its text. */
  datatype DesktopFile = DesktopFile(id: string, text: string)

  datatype Program = Program(id: string, name: string, comment: string, genericName: string,
                             exec: string, icon: string, count: int, keywords: seq<Keyword>)

  const KeywordCap := 20

  function CountOf(p: Program): int { p.count }

  /** `preferences.count[id] || 0`. */
  function LaunchCount(counts: map<string, int>, id: string): int
  {
    if id in counts then counts[id] else 0
  }

  /** The words with one weight, in order (`.map(k => [k, weight])`). */
  function Pairs(words: seq<string>, weight: int): (r: seq<Keyword>)
    ensures |r| == |words|
    ensures forall k :: 0 <= k < |words| ==> r[k] == Keyword(words[k], weight)
  {
    seq(|words|, k requires 0 <= k < |words| => Keyword(words[k], weight))
  }

  /** The keyword list: the lowercased name words with weight 1000, then
      the comment words and the generic-name words with weight 1, cut to 20. */
  function KeywordsOf(p: Props): seq<Keyword>
  {
    Take(Pairs(SplitWs(Lower(p.name)), NameWeight) +
         Pairs(SplitWs(Lower(p.comment)), OtherWeight) +
         Pairs(SplitWs(Lower(p.genericName)), OtherWeight), KeywordCap)
  }

  /** One file of the `readdirSync(...).map` callback, given its
      properties: nothing when it has no `Exec` value. */
  function ProgramOf(id: string, p: Props, counts: map<string, int>): Option<Program>
  {
    if p.exec == "" then None
    else Some(Program(id, p.name, p.comment, p.genericName, StripFieldCodes(p.exec), p.icon,
                      LaunchCount(counts, id), KeywordsOf(p)))
  }

  function LoadProgram(file: DesktopFile, counts: map<string, int>): Option<Program>
  {
    ProgramOf(file.id, PropsOf(LinesOf(file.text)), counts)
  }

  /** The callback's result for every file, in order. */
  function Attempts(files: seq<DesktopFile>, counts: map<string, int>): seq<Option<Program>>
  {
    Each(files, file => LoadProgram(file, counts))
  }

  /** The programs pushed, in file order. */
  function Loaded(files: seq<DesktopFile>, counts: map<string, int>): seq<Program>
  {
    Somes(Attempts(files, counts))
  }

  /** One more file pushes its program, if it yields one, after the others. */
  lemma {:induction false} LoadedSnoc(files: seq<DesktopFile>, counts: map<string, int>, i: nat)
    requires i < |files|
    ensures var r := LoadProgram(files[i], counts);
      Loaded(files[..i + 1], counts) == Loaded(files[..i], counts) + (if r.Some? then [r.value] else [])
  {
    var a := Attempts(files[..i], counts);
    var r := LoadProgram(files[i], counts);
    EachSnoc(files, file => LoadProgram(file, counts), i);
    SomesSnoc(a, r);
  }

  /** A program is loaded exactly when some file yields it. */
  lemma {:induction false} LoadedFromFiles(files: seq<DesktopFile>, counts: map<string, int>)
    ensures forall p :: p in Loaded(files, counts) <==>
      exists i :: 0 <= i < |files| && LoadProgram(files[i], counts) == Some(p)
  {
    var a := Attempts(files, counts);
    SomesMembers(a);
    forall p ensures Some(p) in a <==> exists i :: 0 <= i < |files| && LoadProgram(files[i], counts) == Some(p) {
      if Some(p) in a {
        var i :| 0 <= i < |a| && a[i] == Some(p);
        assert LoadProgram(files[i], counts) == Some(p);
      }
    }
  }

  /** What each loaded program holds: a command read from a non-empty
      `Exec` value, the stored launch count, at most 20 keywords, and the
      name words first with weight 1000. */
  lemma {:induction false} LoadedProgram(id: string, props: Props, counts: map<string, int>)
    requires ProgramOf(id, props, counts).Some?
    ensures var p := ProgramOf(id, props, counts).value;
      && props.exec != ""
      && p.exec == StripFieldCodes(props.exec)
      && p.count == (if id in counts then counts[id] else 0)
      && |p.keywords| <= KeywordCap
      && var names := SplitWs(Lower(props.name));
         forall k :: 0 <= k < |names| && k < KeywordCap ==> p.keywords[k] == Keyword(names[k], 1000)
  {
    var names := SplitWs(Lower(props.name));
    var a := Pairs(names, NameWeight);
    var all := a + Pairs(SplitWs(Lower(props.comment)), OtherWeight) +
               Pairs(SplitWs(Lower(props.genericName)), OtherWeight);
    assert forall k :: 0 <= k < |names| ==> all[k] == a[k];
  }

  /** The callback on one file. */
  method LoadFile(file: DesktopFile, counts: map<string, int>) returns (r: Option<Program>)
    ensures r == LoadProgram(file, counts)
  {
    var props := ReadProps(file.text);
    if props.exec == "" {
      return None;
    }
    var exec := StripFieldCodes(props.exec);
    var count := LaunchCount(counts, file.id);
    var keywords := KeywordsOf(props);
    return Some(Program(file.id, props.name, props.comment, props.genericName, exec, props.icon, count, keywords));
  }

  /** `getPrograms`: load every file, then sort most-launched first; programs
      launched equally often stay in file order. */
  method GetPrograms(files: seq<DesktopFile>, counts: map<string, int>) returns (apps: seq<Program>)
    ensures apps == SortDesc(Loaded(files, counts), CountOf)
    ensures multiset(apps) == multiset(Loaded(files, counts))
    ensures SortedDesc(apps, CountOf)
    ensures forall n :: WithKey(apps, CountOf, n) == WithKey(Loaded(files, counts), CountOf, n)
  {
    var pushed: seq<Program> := [];
    var i := 0;
    while i < |files|
      invariant 0 <= i <= |files|
      invariant pushed == Loaded(files[..i], counts)
    {
      var r := LoadFile(files[i], counts);
      LoadedSnoc(files, counts, i);
      if r.Some? {
        pushed := pushed + [r.value];
      }
      i := i + 1;
    }
    assert files[..i] == files;
    apps := SortDesc(pushed, CountOf);
    forall n ensures WithKey(apps, CountOf, n) == WithKey(pushed, CountOf, n) {
      SortDescStable(pushed, CountOf, n);
    }
  }
}
