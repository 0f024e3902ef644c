/** The pieces of the C++ standard library string behaviour that the launcher's
    code depends on: its ASCII `lowercase`, `std::string::find`, and the token
    sequence produced by `while (getline(ss, word, delim))`.  Strings are
    `seq<char>`; each byte of a `std::string` is one `char`. */
module Text {
  import opened Options

  predicate IsUpper(c: char) { 'A' <= c <= 'Z' }

  /** `lowercase(char)`: only the letters A-Z change. */
  function LowerChar(c: char): (r: char)
    ensures IsUpper(c) ==> r as int == c as int + 32
    ensures !IsUpper(c) ==> r == c
  {
    if IsUpper(c) then (c as int + 32) as char else c
  }

  /** `lowercase(string)`: character-wise ASCII lowercasing. */
  function Lower(s: string): (r: string)
    ensures |r| == |s|
    ensures forall i :: 0 <= i < |s| ==> r[i] == LowerChar(s[i])
  {
    if s == [] then [] else [LowerChar(s[0])] + Lower(s[1..])
  }

  predicate NoUpper(s: string) { forall i :: 0 <= i < |s| ==> !IsUpper(s[i]) }

  /** Lowercased text has no upper-case letter left, is a fixed point of
      lowercasing, and text without upper-case letters is left alone. */
  lemma {:induction false} LowerNormalises(s: string)
    ensures NoUpper(Lower(s))
    ensures Lower(Lower(s)) == Lower(s)
    ensures NoUpper(s) ==> Lower(s) == s
  {
  }

  lemma {:induction false} LowerAppend(a: string, b: string)
    ensures Lower(a + b) == Lower(a) + Lower(b)
  {
  }

  // ---------------------------------------------------------------- find

  /** `needle` occurs in `hay` starting at offset `i`. */
  predicate OccursAt(hay: string, needle: string, i: nat)
  {
    i + |needle| <= |hay| && hay[i..i + |needle|] == needle
  }

  function FindFrom(hay: string, needle: string, i: nat): (r: Option<nat>)
    requires i <= |hay|
    decreases |hay| - i
    ensures r.Some? ==> i <= r.value && OccursAt(hay, needle, r.value)
    ensures r.Some? ==> forall j :: i <= j < r.value ==> !OccursAt(hay, needle, j)
    ensures r.None? ==> forall j: nat :: i <= j ==> !OccursAt(hay, needle, j)
  {
    if OccursAt(hay, needle, i) then Some(i)
    else if i == |hay| then None
    else FindFrom(hay, needle, i + 1)
  }

  /** `hay.find(needle)`: the first offset at which `needle` occurs, `None`
      standing for `std::string::npos`.  An empty needle is found at 0. */
  function Find(hay: string, needle: string): (r: Option<nat>)
    ensures r.Some? ==> OccursAt(hay, needle, r.value)
    ensures r.Some? ==> forall j :: 0 <= j < r.value ==> !OccursAt(hay, needle, j)
    ensures r.None? <==> forall j: nat :: !OccursAt(hay, needle, j)
  {
    FindFrom(hay, needle, 0)
  }

  predicate Contains(hay: string, needle: string) { Find(hay, needle).Some? }

  /** `s.find(p) == 0` is exactly "s starts with p", the test the source uses
      for `Name=`, `Exec=`, `%`, ... */
  lemma {:induction false} FindZeroIffPrefix(s: string, p: string)
    ensures Find(s, p) == Some(0) <==> p <= s
  {
    assert OccursAt(s, p, 0) <==> p <= s;
  }

  /** The empty string is found at offset 0 of every string. */
  lemma {:induction false} FindEmpty(s: string)
    ensures Find(s, "") == Some(0)
  {
    assert OccursAt(s, "", 0);
  }

  // ------------------------------------------------------------ splitting

  /** All pieces between occurrences of `d`: always one more piece than
      there are delimiters (the behaviour of JavaScript's `split` on a
      one-character string). */
  function FullSplit(s: string, d: char): (r: seq<string>)
    ensures |r| >= 1
    decreases |s|
  {
    if s == [] then [[]]
    else
      var init := FullSplit(s[..|s| - 1], d);
      if s[|s| - 1] == d then init + [[]]
      else init[..|init| - 1] + [init[|init| - 1] + [s[|s| - 1]]]
  }

  /** The words read by `while (getline(ss, word, d))` from `s`: the empty
      string gives none, a trailing delimiter ends the last word without
      starting another, and adjacent delimiters give empty words. */
  function GetlineSplit(s: string, d: char): seq<string>
  {
    if s == [] then []
    else if s[|s| - 1] == d then FullSplit(s[..|s| - 1], d)
    else FullSplit(s, d)
  }

  /** The words separated by single delimiters (inverse of splitting). */
  function Join(ws: seq<string>, d: char): string
  {
    if ws == [] then []
    else if |ws| == 1 then ws[0]
    else Join(ws[..|ws| - 1], d) + [d] + ws[|ws| - 1]
  }

  lemma {:induction false} JoinFullSplit(s: string, d: char)
    ensures Join(FullSplit(s, d), d) == s
    ensures forall k :: 0 <= k < |FullSplit(s, d)| ==> d !in FullSplit(s, d)[k]
    decreases |s|
  {
    if s != [] {
      var p, c := s[..|s| - 1], s[|s| - 1];
      assert s == p + [c];
      var init := FullSplit(p, d);
      JoinFullSplit(p, d);
      if c == d {
        var r := init + [[]];
        assert FullSplit(s, d) == r;
        assert r[..|r| - 1] == init;
        assert Join(r, d) == Join(init, d) + [d] + [];
        forall k | 0 <= k < |r| ensures d !in r[k] {
          if k < |init| { assert r[k] == init[k]; }
        }
      } else {
        var n := |init|;
        assert FullSplit(s, d) == init[..n - 1] + [init[n - 1] + [c]];
        JoinLastPiece(init, d, c);
      }
    }
  }

  /** A character other than the delimiter extends the last piece. */
  lemma {:induction false} JoinLastPiece(ws: seq<string>, d: char, c: char)
    requires |ws| >= 1 && c != d
    requires forall k :: 0 <= k < |ws| ==> d !in ws[k]
    ensures var n := |ws|; var r := ws[..n - 1] + [ws[n - 1] + [c]];
      Join(r, d) == Join(ws, d) + [c] && forall k :: 0 <= k < |r| ==> d !in r[k]
  {
    var n := |ws|;
    var r := ws[..n - 1] + [ws[n - 1] + [c]];
    assert r[..n - 1] == ws[..n - 1];
    if n > 1 {
      assert ws == ws[..n - 1] + [ws[n - 1]];
      assert Join(ws, d) == Join(ws[..n - 1], d) + [d] + ws[n - 1];
      assert Join(r, d) == Join(ws[..n - 1], d) + [d] + (ws[n - 1] + [c]);
    }
    forall k | 0 <= k < |r| ensures d !in r[k] {
      if k < n - 1 { assert r[k] == ws[k]; } else { assert r[k] == ws[n - 1] + [c]; }
    }
  }

  /** Splitting with `getline` and joining back with single delimiters gives
      the text again, without its one trailing delimiter if it had one; no
      word holds the delimiter; and only the empty text gives no word. */
  lemma {:induction false} GetlineSplitJoin(s: string, d: char)
    ensures GetlineSplit(s, d) == [] <==> s == []
    ensures forall k :: 0 <= k < |GetlineSplit(s, d)| ==> d !in GetlineSplit(s, d)[k]
    ensures s != [] && s[|s| - 1] == d ==> Join(GetlineSplit(s, d), d) + [d] == s
    ensures s == [] || s[|s| - 1] != d ==> Join(GetlineSplit(s, d), d) == s
  {
    if s != [] {
      if s[|s| - 1] == d {
        JoinFullSplit(s[..|s| - 1], d);
        assert s == s[..|s| - 1] + [d];
      } else {
        JoinFullSplit(s, d);
      }
    }
  }

  /** The `getline` words are all pieces but an empty last one. */
  lemma {:induction false} GetlineFromFullSplit(s: string, d: char)
    ensures var W := FullSplit(s, d);
      (W[|W| - 1] == [] ==> W[..|W| - 1] == GetlineSplit(s, d)) &&
      (W[|W| - 1] != [] ==> W == GetlineSplit(s, d))
  {
    if s != [] {
      var p, c := s[..|s| - 1], s[|s| - 1];
      assert s == p + [c];
      FullSplitSnoc(p, c, d);
      if c == d {
        var W := FullSplit(p, d) + [[]];
        assert W[..|W| - 1] == FullSplit(p, d);
      }
    }
  }

  /** One more character either starts a new piece or extends the last one. */
  lemma {:induction false} FullSplitSnoc(s: string, c: char, d: char)
    ensures c == d ==> FullSplit(s + [c], d) == FullSplit(s, d) + [[]]
    ensures c != d ==> FullSplit(s + [c], d) == Extend(FullSplit(s, d), c)
  {
    assert (s + [c])[..|s + [c]| - 1] == s;
  }

  /** The pieces with `c` appended to the last one. */
  function Extend(ws: seq<string>, c: char): seq<string>
    requires |ws| >= 1
  {
    ws[..|ws| - 1] + [ws[|ws| - 1] + [c]]
  }

  /** Splitting at a delimiter splits the piece sequences. */
  lemma {:induction false} FullSplitConcat(a: string, b: string, d: char)
    ensures FullSplit(a + [d] + b, d) == FullSplit(a, d) + FullSplit(b, d)
    decreases |b|
  {
    if b == [] {
      assert a + [d] + b == a + [d];
      FullSplitSnoc(a, d, d);
      assert FullSplit(b, d) == [[]];
    } else {
      var p, c := b[..|b| - 1], b[|b| - 1];
      assert b == p + [c];
      assert a + [d] + b == (a + [d] + p) + [c];
      FullSplitConcat(a, p, d);
      FullSplitSnoc(a + [d] + p, c, d);
      FullSplitSnoc(p, c, d);
      ExtendAppend(FullSplit(a, d), FullSplit(p, d), c);
    }
  }

  lemma {:induction false} ExtendAppend(L: seq<string>, R: seq<string>, c: char)
    requires |R| >= 1
    ensures Extend(L + R, c) == L + Extend(R, c)
  {
    assert (L + R)[..|L + R| - 1] == L + R[..|R| - 1];
  }

  /** Text holding no delimiter is one piece. */
  lemma {:induction false} FullSplitSingle(s: string, d: char)
    requires d !in s
    ensures FullSplit(s, d) == [s]
    decreases |s|
  {
    if s != [] {
      assert d !in s[..|s| - 1];
      FullSplitSingle(s[..|s| - 1], d);
      assert s == s[..|s| - 1] + [s[|s| - 1]];
    }
  }

  /** Each word followed by the delimiter, as `out << word << d` writes them. */
  function Terminated(ws: seq<string>, d: char): (r: string)
    ensures ws != [] ==> |r| >= 1 && r[|r| - 1] == d
  {
    if ws == [] then [] else Terminated(ws[..|ws| - 1], d) + ws[|ws| - 1] + [d]
  }

  /** Text after terminated words splits into those words, then the rest. */
  lemma {:induction false} FullSplitAfterTerminated(ws: seq<string>, b: string, d: char)
    requires forall k :: 0 <= k < |ws| ==> d !in ws[k]
    ensures FullSplit(Terminated(ws, d) + b, d) == ws + FullSplit(b, d)
    decreases |ws|
  {
    if ws == [] {
      assert Terminated(ws, d) + b == b;
    } else {
      var init, last := ws[..|ws| - 1], ws[|ws| - 1];
      assert Terminated(ws, d) + b == Terminated(init, d) + (last + [d] + b);
      assert d !in last;
      FullSplitAfterTerminated(init, last + [d] + b, d);
      FullSplitConcat(last, b, d);
      FullSplitSingle(last, d);
      assert ws == init + [last];
    }
  }

  /** Reading back with `getline` what was written word by word, each
      followed by the delimiter, gives the words again when none holds the
      delimiter. */
  lemma {:induction false} GetlineOfTerminated(ws: seq<string>, d: char)
    requires forall k :: 0 <= k < |ws| ==> d !in ws[k]
    ensures GetlineSplit(Terminated(ws, d), d) == ws
  {
    if ws != [] {
      var init, last := ws[..|ws| - 1], ws[|ws| - 1];
      var t := Terminated(ws, d);
      assert t[..|t| - 1] == Terminated(init, d) + last;
      FullSplitAfterTerminated(init, last, d);
      FullSplitSingle(last, d);
      assert ws == init + [last];
    }
  }
}
