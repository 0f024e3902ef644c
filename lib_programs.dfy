/** lib/programs.js: the same reading as src/programs.js, but each program
    carries one search string `querysearch` (lowercased name, comment and
    generic name joined by `:`) instead of keywords. */
module LibPrograms {
  import opened Options
  import opened Text
  import opened Sorting
  import opened DesktopEntry
  import SrcPrograms

  datatype Program = Program(id: string, name: string, comment: string, genericName: string,
                             exec: string, icon: string, querysearch: string, count: int)

  function CountOf(p: Program): int { p.count }

  /** `name.toLowerCase() + ':' + comment.toLowerCase() + ':' + genericName.toLowerCase()`. */
  function QuerySearch(p: Props): string
  {
    Lower(p.name) + ":" + Lower(p.comment) + ":" + Lower(p.genericName)
  }

  /** The three fields can be split back out of the search string when
      none of them holds `:`. */
  lemma {:induction false} QuerySearchSplits(p: Props)
    requires ':' !in p.name && ':' !in p.comment && ':' !in p.genericName
    ensures FullSplit(QuerySearch(p), ':') == [Lower(p.name), Lower(p.comment), Lower(p.genericName)]
  {
    var a, b, c := Lower(p.name), Lower(p.comment), Lower(p.genericName);
    NoColonAfterLower(p.name);
    NoColonAfterLower(p.comment);
    NoColonAfterLower(p.genericName);
    assert QuerySearch(p) == (a + [':'] + b) + [':'] + c;
    FullSplitConcat(a + [':'] + b, c, ':');
    FullSplitConcat(a, b, ':');
    FullSplitSingle(a, ':');
    FullSplitSingle(b, ':');
    FullSplitSingle(c, ':');
  }

  lemma {:induction false} NoColonAfterLower(s: string)
    requires ':' !in s
    ensures ':' !in Lower(s)
  {
    forall i | 0 <= i < |s| ensures Lower(s)[i] != ':' {
      assert s[i] != ':';
    }
  }

  /** A search text without `:` occurs in the search string exactly when
      it occurs in the lowercased name, comment or generic name. */
  lemma {:induction false} QuerySearchContains(p: Props, q: string)
    requires ':' !in q
    ensures Contains(QuerySearch(p), q) <==>
      Contains(Lower(p.name), q) || Contains(Lower(p.comment), q) || Contains(Lower(p.genericName), q)
  {
    var a, b, c := Lower(p.name), Lower(p.comment), Lower(p.genericName);
    var ab := a + ":" + b;
    assert QuerySearch(p) == ab + ":" + c;
    ContainsAcross(ab, c, q);
    ContainsAcross(a, b, q);
  }

  /** Inside an occurrence the text shows the needle. */
  lemma {:induction false} InsideOccurrence(s: string, q: string, i: nat, c: nat)
    requires i + |q| <= |s| && s[i..i + |q|] == q
    ensures i <= c < i + |q| ==> s[c] == q[c - i]
  {
  }

  /** A needle without `:` occurs in `x:y` exactly when it occurs in `x` or `y`. */
  lemma {:induction false} ContainsAcross(x: string, y: string, q: string)
    requires ':' !in q
    ensures Contains(x + ":" + y, q) <==> Contains(x, q) || Contains(y, q)
  {
    var s := x + ":" + y;
    if Contains(s, q) {
      OccurrenceInPart(x, y, q, Find(s, q).value);
    }
    if Contains(x, q) {
      LeftOccurrence(x, y, q, Find(x, q).value);
    }
    if Contains(y, q) {
      RightOccurrence(x, y, q, Find(y, q).value);
    }
  }

  lemma {:induction false} OccurrenceInPart(x: string, y: string, q: string, i: nat)
    requires ':' !in q && OccursAt(x + ":" + y, q, i)
    ensures Contains(x, q) || Contains(y, q)
  {
    var s := x + ":" + y;
    assert s[i..i + |q|] == q;
    if i + |q| <= |x| {
      assert x[i..i + |q|] == q;
      assert OccursAt(x, q, i);
    } else {
      assert s[|x|] == ':';
      InsideOccurrence(s, q, i, |x|);
      var j := i - |x| - 1;
      assert y[j..j + |q|] == s[i..i + |q|];
      assert OccursAt(y, q, j);
    }
  }

  lemma {:induction false} LeftOccurrence(x: string, y: string, q: string, i: nat)
    requires OccursAt(x, q, i)
    ensures Contains(x + ":" + y, q)
  {
    var s := x + ":" + y;
    assert s[i..i + |q|] == x[i..i + |q|];
    assert OccursAt(s, q, i);
  }

  lemma {:induction false} RightOccurrence(x: string, y: string, q: string, j: nat)
    requires OccursAt(y, q, j)
    ensures Contains(x + ":" + y, q)
  {
    var s := x + ":" + y;
    var i := j + |x| + 1;
    assert s[i..i + |q|] == y[j..j + |q|];
    assert OccursAt(s, q, i);
  }

  /** One file of the `readdirSync(...).map` callback, given its
      properties: nothing when it has no `Exec` value. */
  function ProgramOf(id: string, p: Props, counts: map<string, int>): Option<Program>
  {
    if p.exec == "" then None
    else Some(Program(id, p.name, p.comment, p.genericName, StripFieldCodes(p.exec), p.icon,
                      QuerySearch(p), SrcPrograms.LaunchCount(counts, id)))
  }

  function LoadProgram(file: SrcPrograms.DesktopFile, counts: map<string, int>): Option<Program>
  {
    ProgramOf(file.id, PropsOf(LinesOf(file.text)), counts)
  }

  /** The callback's result for every file, in order. */
  function Attempts(files: seq<SrcPrograms.DesktopFile>, counts: map<string, int>): seq<Option<Program>>
  {
    Each(files, file => LoadProgram(file, counts))
  }

  /** The programs pushed, in file order. */
  function Loaded(files: seq<SrcPrograms.DesktopFile>, counts: map<string, int>): seq<Program>
  {
    Somes(Attempts(files, counts))
  }

  /** One more file pushes its program, if it yields one, after the others. */
  lemma {:induction false} LoadedSnoc(files: seq<SrcPrograms.DesktopFile>, counts: map<string, int>, i: nat)
    requires i < |files|
    ensures var r := LoadProgram(files[i], counts);
      Loaded(files[..i + 1], counts) == Loaded(files[..i], counts) + (if r.Some? then [r.value] else [])
  {
    EachSnoc(files, file => LoadProgram(file, counts), i);
    SomesSnoc(Attempts(files[..i], counts), LoadProgram(files[i], counts));
  }

  /** The fields both readers share. */
  predicate Agree(p: Program, q: SrcPrograms.Program)
  {
    p.id == q.id && p.name == q.name && p.comment == q.comment && p.genericName == q.genericName &&
    p.exec == q.exec && p.icon == q.icon && p.count == q.count
  }

  predicate AllAgree(ps: seq<Program>, qs: seq<SrcPrograms.Program>)
  {
    |ps| == |qs| && forall k :: 0 <= k < |ps| ==> Agree(ps[k], qs[k])
  }

  /** On one file the two readers keep or drop it alike, with the same fields. */
  lemma {:induction false} SameProgram(id: string, props: Props, counts: map<string, int>)
    ensures ProgramOf(id, props, counts).Some? <==> SrcPrograms.ProgramOf(id, props, counts).Some?
    ensures ProgramOf(id, props, counts).Some? ==>
      Agree(ProgramOf(id, props, counts).value, SrcPrograms.ProgramOf(id, props, counts).value)
  {
  }

  lemma {:induction false} SameStep(files: seq<SrcPrograms.DesktopFile>, counts: map<string, int>, i: nat)
    requires i < |files|
    requires AllAgree(Loaded(files[..i], counts), SrcPrograms.Loaded(files[..i], counts))
    ensures AllAgree(Loaded(files[..i + 1], counts), SrcPrograms.Loaded(files[..i + 1], counts))
  {
    var f := files[i];
    var props := PropsOf(LinesOf(f.text));
    var r, s := ProgramOf(f.id, props, counts), SrcPrograms.ProgramOf(f.id, props, counts);
    LoadedSnoc(files, counts, i);
    SrcPrograms.LoadedSnoc(files, counts, i);
    SameProgram(f.id, props, counts);
    var ps, qs := Loaded(files[..i], counts), SrcPrograms.Loaded(files[..i], counts);
    if r.Some? {
      assert AllAgree(ps + [r.value], qs + [s.value]) by {
        forall k | 0 <= k < |ps| + 1 ensures Agree((ps + [r.value])[k], (qs + [s.value])[k]) {
          if k < |ps| {
            assert Agree(ps[k], qs[k]);
          }
        }
      }
    }
  }

  /** Both readers keep the same files, in the same order, with the same
      fields and counts. */
  lemma {:induction false} SameProgramsAsSrc(files: seq<SrcPrograms.DesktopFile>, counts: map<string, int>)
    ensures AllAgree(Loaded(files, counts), SrcPrograms.Loaded(files, counts))
  {
    var i := 0;
    while i < |files|
      invariant 0 <= i <= |files|
      invariant AllAgree(Loaded(files[..i], counts), SrcPrograms.Loaded(files[..i], counts))
    {
      SameStep(files, counts, i);
      i := i + 1;
    }
    assert files[..i] == files;
  }

  /** The callback on one file. */
  method LoadFile(file: SrcPrograms.DesktopFile, counts: map<string, int>) returns (r: Option<Program>)
    ensures r == LoadProgram(file, counts)
  {
    var props := ReadProps(file.text);
    if props.exec == "" {
      return None;
    }
    var exec := StripFieldCodes(props.exec);
    var querysearch := QuerySearch(props);
    var count := SrcPrograms.LaunchCount(counts, file.id);
    return Some(Program(file.id, props.name, props.comment, props.genericName, exec, props.icon, querysearch, count));
  }

  /** `getPrograms`: load every file, then sort most-launched first; programs
      launched equally often stay in file order. */
  method GetPrograms(files: seq<SrcPrograms.DesktopFile>, counts: map<string, int>) returns (programs: seq<Program>)
    ensures programs == SortDesc(Loaded(files, counts), CountOf)
    ensures multiset(programs) == multiset(Loaded(files, counts))
    ensures SortedDesc(programs, CountOf)
    ensures forall n :: WithKey(programs, CountOf, n) == WithKey(Loaded(files, counts), CountOf, n)
  {
    var pushed: seq<Program> := [];
    var i := 0;
    while i < |files|
      invariant 0 <= i <= |files|
      invariant pushed == Loaded(files[..i], counts)
    {
      var r := LoadFile(files[i], counts);
      LoadedSnoc(files, counts, i);
      if r.Some? {
        pushed := pushed + [r.value];
      }
      i := i + 1;
    }
    assert files[..i] == files;
    programs := SortDesc(pushed, CountOf);
    forall n ensures WithKey(programs, CountOf, n) == WithKey(pushed, CountOf, n) {
      SortDescStable(pushed, CountOf, n);
    }
  }
}
