/** The desktop-file reading shared by src/programs.js and lib/programs.js:
    JavaScript's `trim`, the `\s` class and `split(/\s+/)`, the key and
    value of a `key=value` line, the first-non-empty rule for the five
    properties, and the removal of field codes from `Exec`. */
module DesktopEntry {
  import opened Text

  /** ECMAScript `WhiteSpace` and `LineTerminator`: what `trim` removes and
      what `\s` matches. */
  predicate IsJsSpace(c: char)
  {
    || c == ' ' || c == '\t' || c == '\n' || c == '\r'
    || c as int == 0x0B || c as int == 0x0C || c as int == 0xA0 || c as int == 0xFEFF
    || c as int == 0x1680 || (0x2000 <= c as int <= 0x200A)
    || c as int == 0x2028 || c as int == 0x2029 || c as int == 0x202F
    || c as int == 0x205F || c as int == 0x3000
  }

  /** `\w`. */
  predicate IsWordChar(c: char)
  {
    ('a' <= c <= 'z') || ('A' <= c <= 'Z') || ('0' <= c <= '9') || c == '_'
  }

  // -------------------------------------------------------------- trim

  function TrimStart(s: string): string
  {
    if s != [] && IsJsSpace(s[0]) then TrimStart(s[1..]) else s
  }

  function TrimEnd(s: string): string
  {
    if s != [] && IsJsSpace(s[|s| - 1]) then TrimEnd(s[..|s| - 1]) else s
  }

  /** `trimStart` drops exactly the leading white space. */
  lemma {:induction false} TrimStartDropsSpace(s: string)
    ensures var r := TrimStart(s);
      && |r| <= |s| && r == s[|s| - |r|..]
      && (forall k :: 0 <= k < |s| - |r| ==> IsJsSpace(s[k]))
      && (r == [] || !IsJsSpace(r[0]))
  {
    if s != [] && IsJsSpace(s[0]) {
      TrimStartDropsSpace(s[1..]);
      var r := TrimStart(s);
      forall k | 0 <= k < |s| - |r| ensures IsJsSpace(s[k]) {
        if k > 0 {
          assert s[k] == s[1..][k - 1];
        }
      }
    }
  }

  /** `trimEnd` drops exactly the trailing white space. */
  lemma {:induction false} TrimEndDropsSpace(s: string)
    ensures var r := TrimEnd(s);
      && r <= s
      && (forall k :: |r| <= k < |s| ==> IsJsSpace(s[k]))
      && (r == [] || !IsJsSpace(r[|r| - 1]))
  {
    if s != [] && IsJsSpace(s[|s| - 1]) {
      TrimEndDropsSpace(s[..|s| - 1]);
      var r := TrimEnd(s);
      forall k | |r| <= k < |s| ensures IsJsSpace(s[k]) {
        if k < |s| - 1 {
          assert s[k] == s[..|s| - 1][k];
        }
      }
    }
  }

  /** `String.prototype.trim`. */
  function Trim(s: string): string
  {
    TrimEnd(TrimStart(s))
  }

  /** `trim` removes exactly the white space at both ends: a middle slice
      of the text with white space only outside it and none at its ends. */
  lemma {:induction false} TrimIsMiddle(s: string)
    ensures exists i, j :: (0 <= i <= j <= |s| && Trim(s) == s[i..j] &&
                            (forall k :: 0 <= k < i ==> IsJsSpace(s[k])) &&
                            (forall k :: j <= k < |s| ==> IsJsSpace(s[k])))
    ensures Trim(s) == [] || (!IsJsSpace(Trim(s)[0]) && !IsJsSpace(Trim(s)[|Trim(s)| - 1]))
  {
    var t := TrimStart(s);
    TrimStartDropsSpace(s);
    TrimEndDropsSpace(t);
    var i := |s| - |t|;
    var j := i + |Trim(s)|;
    assert Trim(s) == s[i..j];
    forall k | j <= k < |s| ensures IsJsSpace(s[k]) {
      assert s[k] == t[k - i];
    }
    if Trim(s) != [] {
      assert Trim(s)[0] == t[0];
    }
  }

  /** Text with no white space at either end is its own trim; so `trim`
      is idempotent. */
  lemma {:induction false} TrimIdempotent(s: string)
    ensures s == [] || (!IsJsSpace(s[0]) && !IsJsSpace(s[|s| - 1])) ==> Trim(s) == s
    ensures Trim(Trim(s)) == Trim(s)
  {
    TrimIsMiddle(s);
  }

  // ------------------------------------------------------- split(/\s+/)

  /** `s.split(/\s+/)`: the pieces between maximal runs of white space; a
      leading or trailing run gives an empty first or last piece and the
      empty string gives one empty piece. */
  function SplitWs(s: string): (r: seq<string>)
    ensures |r| >= 1
    decreases |s|
  {
    if s == [] then [[]]
    else
      var init := SplitWs(s[..|s| - 1]);
      var c := s[|s| - 1];
      if !IsJsSpace(c) then Extend(init, c)
      else if |s| >= 2 && IsJsSpace(s[|s| - 2]) then init
      else init + [[]]
  }

  /** The white-space runs between the pieces of `SplitWs(s)`, in order. */
  function SpaceRuns(s: string): (r: seq<string>)
    ensures s != [] && IsJsSpace(s[|s| - 1]) ==> |r| >= 1
    decreases |s|
  {
    if s == [] then []
    else
      var init := SpaceRuns(s[..|s| - 1]);
      var c := s[|s| - 1];
      if !IsJsSpace(c) then init
      else if |s| >= 2 && IsJsSpace(s[|s| - 2]) then Extend(init, c)
      else init + [[c]]
  }

  predicate NoSpaceIn(w: string) { forall i :: 0 <= i < |w| ==> !IsJsSpace(w[i]) }

  predicate AllSpace(w: string) { forall i :: 0 <= i < |w| ==> IsJsSpace(w[i]) }

  /** The pieces with the separators between them: `ws[0] + seps[0] + ws[1] + ...`. */
  function Interleave(ws: seq<string>, seps: seq<string>): string
    requires |ws| == |seps| + 1
    decreases |seps|
  {
    if seps == [] then ws[0]
    else Interleave(ws[..|ws| - 1], seps[..|seps| - 1]) + seps[|seps| - 1] + ws[|ws| - 1]
  }

  /** What `split(/\s+/)` promises: the text is the pieces interleaved with
      non-empty runs of white space; no piece holds white space, so every run
      is maximal and the pieces break exactly at the runs; only the first
      and the last piece can be empty.  The last two clauses say where the
      text ends: in a non-empty piece, or in a run followed by an empty one. */
  ghost predicate SplitShape(ws: seq<string>, seps: seq<string>, s: string)
  {
    && |ws| == |seps| + 1
    && (forall k :: 0 <= k < |ws| ==> NoSpaceIn(ws[k]))
    && (forall k :: 0 <= k < |seps| ==> seps[k] != [] && AllSpace(seps[k]))
    && (forall k :: 0 < k < |ws| - 1 ==> ws[k] != [])
    && Interleave(ws, seps) == s
    && (s != [] && !IsJsSpace(s[|s| - 1]) ==> ws[|ws| - 1] != [])
    && (s != [] && IsJsSpace(s[|s| - 1]) ==> ws[|ws| - 1] == [] && |seps| >= 1)
  }

  lemma {:induction false} SplitWsPieces(s: string)
    ensures SplitShape(SplitWs(s), SpaceRuns(s), s)
    decreases |s|
  {
    if s != [] {
      var p, c := s[..|s| - 1], s[|s| - 1];
      SplitWsPieces(p);
      assert s == p + [c];
      if !IsJsSpace(c) {
        ShapeAfterWordChar(SplitWs(p), SpaceRuns(p), p, c);
      } else if |s| >= 2 && IsJsSpace(s[|s| - 2]) {
        ShapeAfterRun(SplitWs(p), SpaceRuns(p), p, c);
      } else {
        ShapeAfterSpace(SplitWs(p), SpaceRuns(p), p, c);
      }
    }
  }

  lemma {:induction false} InterleaveExtend(ws: seq<string>, seps: seq<string>, c: char)
    requires |ws| == |seps| + 1
    ensures Interleave(Extend(ws, c), seps) == Interleave(ws, seps) + [c]
  {
    var e := Extend(ws, c);
    if seps != [] {
      var n := |ws|;
      assert e[..n - 1] == ws[..n - 1] && e[n - 1] == ws[n - 1] + [c];
    }
  }

  lemma {:induction false} ShapeAfterWordChar(ws: seq<string>, seps: seq<string>, p: string, c: char)
    requires SplitShape(ws, seps, p) && !IsJsSpace(c)
    ensures SplitShape(Extend(ws, c), seps, p + [c])
  {
    var r := Extend(ws, c);
    InterleaveExtend(ws, seps, c);
    forall k | 0 <= k < |r| ensures NoSpaceIn(r[k]) {
      if k < |ws| - 1 { assert r[k] == ws[k]; }
    }
    forall k | 0 < k < |r| - 1 ensures r[k] != [] {
      assert r[k] == ws[k];
    }
  }

  lemma {:induction false} ShapeAfterRun(ws: seq<string>, seps: seq<string>, p: string, c: char)
    requires SplitShape(ws, seps, p) && IsJsSpace(c) && p != [] && IsJsSpace(p[|p| - 1])
    ensures SplitShape(ws, Extend(seps, c), p + [c])
  {
    var e := Extend(seps, c);
    var m := |seps|;
    assert e[..m - 1] == seps[..m - 1] && e[m - 1] == seps[m - 1] + [c];
    assert Interleave(ws, e) == Interleave(ws, seps) + [c];
    forall k | 0 <= k < |e| ensures e[k] != [] && AllSpace(e[k]) {
      if k < m - 1 { assert e[k] == seps[k]; }
    }
  }

  lemma {:induction false} ShapeAfterSpace(ws: seq<string>, seps: seq<string>, p: string, c: char)
    requires SplitShape(ws, seps, p) && IsJsSpace(c) && !(p != [] && IsJsSpace(p[|p| - 1]))
    requires p == [] ==> |ws| == 1
    ensures SplitShape(ws + [[]], seps + [[c]], p + [c])
  {
    var r, e := ws + [[]], seps + [[c]];
    assert r[..|r| - 1] == ws && e[..|e| - 1] == seps;
    assert Interleave(r, e) == p + [c] + [];
    forall k | 0 < k < |r| - 1 ensures r[k] != [] {
      assert r[k] == ws[k];
    }
    forall k | 0 <= k < |e| ensures e[k] != [] && AllSpace(e[k]) {
      if k < |seps| { assert e[k] == seps[k]; }
    }
  }

  /** A word without white space is one piece. */
  lemma {:induction false} SplitWsSingle(s: string)
    requires NoSpaceIn(s)
    ensures SplitWs(s) == [s]
    decreases |s|
  {
    if s != [] {
      SplitWsSingle(s[..|s| - 1]);
      assert s == s[..|s| - 1] + [s[|s| - 1]];
    }
  }

  // -------------------------------------------------------- key=value

  /** `line.trim().split('=')`. */
  function Fields(line: string): (kv: seq<string>)
    ensures |kv| >= 1
  {
    FullSplit(Trim(line), '=')
  }

  /** `kv[0]`: the trimmed line up to its first `=`. */
  function KeyOf(line: string): string
  {
    Fields(line)[0]
  }

  /** `kv[1]` as the source reads it: the text between the first and the
      second `=` (`undefined`, modelled as "", when there is no `=`). */
  function ValueAsWritten(line: string): string
  {
    var kv := Fields(line);
    if |kv| > 1 then kv[1] else ""
  }

  /** The value of the line: all of the trimmed line after its first `=`. */
  function ValueOf(line: string): string
  {
    var kv := Fields(line);
    if |kv| > 1 then Join(kv[1..], '=') else ""
  }

  /** A line `key=value` as written in a desktop file. */
  lemma {:induction false} FieldsOfEntry(key: string, value: string)
    requires '=' !in key
    requires Trim(key + "=" + value) == key + "=" + value
    ensures Fields(key + "=" + value) == [key] + FullSplit(value, '=')
  {
    assert key + "=" + value == key + ['='] + value;
    FullSplitConcat(key, value, '=');
    FullSplitSingle(key, '=');
  }

  /** Reading a `key=value` line gives that key and all of that value. */
  lemma {:induction false} KeyValueRoundTrip(key: string, value: string)
    requires '=' !in key
    requires Trim(key + "=" + value) == key + "=" + value
    ensures KeyOf(key + "=" + value) == key
    ensures ValueOf(key + "=" + value) == value
  {
    FieldsOfEntry(key, value);
    var kv := [key] + FullSplit(value, '=');
    assert kv[1..] == FullSplit(value, '=');
    JoinFullSplit(value, '=');
  }

  /** As written, a value holding `=` is cut at it: `Exec=env A=1 app`
      gives the command `env A` where the whole value is `env A=1 app`. */
  lemma {:induction false} ValueStopsAtSecondEquals(key: string, a: string, b: string)
    requires '=' !in key && '=' !in a && '=' !in b
    requires Trim(key + "=" + a + "=" + b) == key + "=" + a + "=" + b
    ensures KeyOf(key + "=" + a + "=" + b) == key
    ensures ValueAsWritten(key + "=" + a + "=" + b) == a
    ensures ValueOf(key + "=" + a + "=" + b) == a + "=" + b
  {
    var value := a + "=" + b;
    assert key + "=" + a + "=" + b == key + "=" + value;
    KeyValueRoundTrip(key, value);
    FieldsOfEntry(key, value);
    assert value == a + ['='] + b;
    FullSplitConcat(a, b, '=');
    FullSplitSingle(a, '=');
  }

  /** The two value rules agree on every line whose whole value holds no
      `=`: only such values are read correctly as written. */
  lemma {:induction false} ValueRulesAgree(line: string)
    ensures '=' !in ValueOf(line) <==> ValueAsWritten(line) == ValueOf(line)
  {
    var kv := Fields(line);
    if |kv| > 1 {
      var rest := kv[1..];
      JoinFullSplit(Trim(line), '=');
      assert rest[0] == kv[1];
      assert '=' !in rest[0];
      if |rest| >= 2 {
        JoinHoldsDelimiter(rest, '=');
        assert Join(rest, '=') != rest[0];
      } else {
        assert Join(rest, '=') == rest[0];
      }
    }
  }

  /** Two or more pieces joined hold the delimiter. */
  lemma {:induction false} JoinHoldsDelimiter(ws: seq<string>, d: char)
    requires |ws| >= 2
    ensures d in Join(ws, d)
  {
    var a := Join(ws[..|ws| - 1], d);
    assert Join(ws, d) == a + [d] + ws[|ws| - 1];
    assert (a + [d] + ws[|ws| - 1])[|a|] == d;
  }

  // --------------------------------------------------------- properties

  /** The five properties both readers keep (`Icon` is read but not used
      by anything modelled here). */
  datatype Props = Props(name: string, comment: string, genericName: string, exec: string, icon: string)


  /** A line read as its key and its value. */
  datatype Entry = Entry(key: string, value: string)

  function Entries(lines: seq<string>): (es: seq<Entry>)
    ensures |es| == |lines|
    ensures forall i :: 0 <= i < |lines| ==> es[i] == Entry(KeyOf(lines[i]), ValueAsWritten(lines[i]))
  {
    seq(|lines|, i requires 0 <= i < |lines| => Entry(KeyOf(lines[i]), ValueAsWritten(lines[i])))
  }

  /** `if (props.includes(kv[0]) && !app[kv[0]]) app[kv[0]] = value`, entry
      by entry: the first non-empty value of the key wins ("" and `undefined`
      are both falsy, so an empty value is overwritten by a later line). */
  function FirstProp(es: seq<Entry>, key: string): string
  {
    if es == [] then "" else Keep(FirstProp(es[..|es| - 1], key), es[|es| - 1], key)
  }

  /** The property is the value of the first entry with that key and a
      non-empty value, and "" when there is none. */
  lemma {:induction false} FirstPropIsFirst(es: seq<Entry>, key: string)
    ensures FirstProp(es, key) == "" <==>
      forall j :: 0 <= j < |es| && es[j].key == key ==> es[j].value == ""
    ensures FirstProp(es, key) != "" ==>
      exists j :: (0 <= j < |es| && es[j].key == key && es[j].value == FirstProp(es, key) &&
                   forall i :: 0 <= i < j && es[i].key == key ==> es[i].value == "")
  {
    if es != [] {
      var init := es[..|es| - 1];
      FirstPropIsFirst(init, key);
      assert forall j :: 0 <= j < |init| ==> init[j] == es[j];
      var v := FirstProp(init, key);
      if v != "" {
        var j :| 0 <= j < |init| && init[j].key == key && init[j].value == v &&
          forall i :: 0 <= i < j && init[i].key == key ==> init[i].value == "";
        assert es[j] == init[j];
      }
    }
  }

  function PropsOf(lines: seq<string>): Props
  {
    var es := Entries(lines);
    Props(FirstProp(es, "Name"), FirstProp(es, "Comment"), FirstProp(es, "GenericName"),
          FirstProp(es, "Exec"), FirstProp(es, "Icon"))
  }

  /** `desktop.trim().split('\n')`. */
  function LinesOf(desktop: string): seq<string>
  {
    FullSplit(Trim(desktop), '\n')
  }

  /** One line of the `forEach`: each property not yet set takes the
      line's value when the line carries its key. */
  function PropStep(p: Props, e: Entry): Props
  {
    Props(Keep(p.name, e, "Name"), Keep(p.comment, e, "Comment"), Keep(p.genericName, e, "GenericName"),
          Keep(p.exec, e, "Exec"), Keep(p.icon, e, "Icon"))
  }

  function Keep(v: string, e: Entry, key: string): string
  {
    if v == "" && e.key == key then e.value else v
  }

  lemma {:induction false} PropsOfSnoc(lines: seq<string>, i: nat)
    requires i < |lines|
    ensures PropsOf(lines[..i + 1]) == PropStep(PropsOf(lines[..i]), Entry(KeyOf(lines[i]), ValueAsWritten(lines[i])))
  {
    var es := Entries(lines[..i + 1]);
    assert es[..i] == Entries(lines[..i]);
    assert es[i] == Entry(KeyOf(lines[i]), ValueAsWritten(lines[i]));
  }

  /** The `forEach` over the lines of one desktop file. */
  method ReadProps(desktop: string) returns (p: Props)
    ensures p == PropsOf(LinesOf(desktop))
  {
    var lines := LinesOf(desktop);
    p := Props("", "", "", "", "");
    var i := 0;
    while i < |lines|
      invariant 0 <= i <= |lines|
      invariant p == PropsOf(lines[..i])
    {
      var line := lines[i];
      var key := KeyOf(line);
      var value := ValueAsWritten(line);
      PropsOfSnoc(lines, i);
      ghost var next := PropStep(p, Entry(key, value));
      if key == "Name" && p.name == "" {
        p := p.(name := value);
      } else if key == "Comment" && p.comment == "" {
        p := p.(comment := value);
      } else if key == "GenericName" && p.genericName == "" {
        p := p.(genericName := value);
      } else if key == "Exec" && p.exec == "" {
        p := p.(exec := value);
      } else if key == "Icon" && p.icon == "" {
        p := p.(icon := value);
      }
      assert p == next;
      i := i + 1;
    }
    assert lines[..i] == lines;
  }

  // --------------------------------------------------------- field codes

  /** A match of `/\s%\w/` at position `i`. */
  predicate FieldCodeAt(s: string, i: nat)
  {
    i + 3 <= |s| && IsJsSpace(s[i]) && s[i + 1] == '%' && IsWordChar(s[i + 2])
  }

  /** `exec.replace(/\s%\w/g, '')`: scanning from the left, every match is
      removed and the scan resumes after it. */
  function StripFieldCodes(s: string): (r: string)
    ensures |r| <= |s|
    decreases |s|
  {
    if s == [] then []
    else if FieldCodeAt(s, 0) then StripFieldCodes(s[3..])
    else [s[0]] + StripFieldCodes(s[1..])
  }

  /** A command without field codes is left as it is. */
  lemma {:induction false} StripNothing(s: string)
    requires forall i :: 0 <= i < |s| ==> !FieldCodeAt(s, i)
    ensures StripFieldCodes(s) == s
    decreases |s|
  {
    if s != [] {
      assert forall i :: 0 <= i < |s| - 1 ==> (FieldCodeAt(s[1..], i) <==> FieldCodeAt(s, i + 1));
      StripNothing(s[1..]);
      assert s == [s[0]] + s[1..];
    }
  }

  /** A field code after text that holds none is removed, and the scan goes
      on after it. */
  lemma {:induction false} StripFieldCode(a: string, w: char, c: char, b: string)
    requires forall i :: 0 <= i < |a| ==> !FieldCodeAt(a, i)
    requires IsJsSpace(w) && IsWordChar(c)
    ensures StripFieldCodes(a + [w, '%', c] + b) == a + StripFieldCodes(b)
    decreases |a|
  {
    var s := a + [w, '%', c] + b;
    if a == [] {
      assert s == [w, '%', c] + b;
      assert FieldCodeAt(s, 0);
      assert s[3..] == b;
    } else {
      var t := a[1..];
      NoCodeAtStart(a, w, c, b);
      NoCodeInTail(a);
      assert s[1..] == t + [w, '%', c] + b;
      StripFieldCode(t, w, c, b);
      assert StripFieldCodes(s) == [a[0]] + StripFieldCodes(s[1..]);
      assert a == [a[0]] + t;
    }
  }

  lemma {:induction false} NoCodeAtStart(a: string, w: char, c: char, b: string)
    requires a != [] && forall i :: 0 <= i < |a| ==> !FieldCodeAt(a, i)
    requires IsJsSpace(w)
    ensures !FieldCodeAt(a + [w, '%', c] + b, 0)
  {
    var s := a + [w, '%', c] + b;
    if |a| >= 3 { assert !FieldCodeAt(a, 0); }
    else if |a| == 2 { assert s[2] == w; }
    else { assert s[1] == w; }
  }

  lemma {:induction false} NoCodeInTail(a: string)
    requires a != [] && forall i :: 0 <= i < |a| ==> !FieldCodeAt(a, i)
    ensures forall i :: 0 <= i < |a[1..]| ==> !FieldCodeAt(a[1..], i)
  {
    forall i | 0 <= i < |a[1..]| ensures !FieldCodeAt(a[1..], i) {
      assert !FieldCodeAt(a, i + 1);
    }
  }
}
