/** The text-input part of `onKeyPress`, identical in launcher.cpp and x.cpp:
    the query, the edit cursor, and what each key does to them; and the
    launcher.cpp selection rules for Up/Down and for the main loop. */
module LineEditor {

  /** The keysyms `onKeyPress` tells apart; every other key is `Other`
      (the `default:` branch). */
  datatype KeySym = Escape | Return | Up | Down | Left | Right | Home | End | BackSpace | Delete | Other

  /** The query text and the cursor index into it. */
  datatype Line = Line(query: string, cursor: int)

  predicate Valid(l: Line) { 0 <= l.cursor <= |l.query| }

  /** The characters of a zero-initialised `char text[128]` up to its first
      NUL, which is what `string + text` appends. */
  function CString(text: string): (r: string)
    ensures r <= text && '\0' !in r
    ensures |r| < |text| ==> text[|r|] == '\0'
  {
    if text == [] || text[0] == '\0' then [] else [text[0]] + CString(text[1..])
  }

  function MoveLeft(l: Line): Line
  {
    if l.cursor > 0 then l.(cursor := l.cursor - 1) else l
  }

  function MoveRight(l: Line): Line
  {
    if l.cursor < |l.query| then l.(cursor := l.cursor + 1) else l
  }

  /** `XK_BackSpace`: remove the character before the cursor. */
  function Backspace(l: Line): Line
    requires Valid(l)
  {
    if l.cursor > 0 then Line(l.query[..l.cursor - 1] + l.query[l.cursor..], l.cursor - 1) else l
  }

  /** `XK_Delete`: remove the character under the cursor. */
  function DeleteForward(l: Line): Line
    requires Valid(l)
  {
    if l.cursor < |l.query| then Line(l.query[..l.cursor] + l.query[l.cursor + 1..], l.cursor) else l
  }

  /** The `default:` branch as the source writes it: when `XLookupString`
      produced one byte, splice the C string `text` in at the cursor and move
      the cursor by one. */
  function InsertAsWritten(l: Line, text: string): Line
    requires Valid(l)
  {
    if |text| == 1 then Line(l.query[..l.cursor] + CString(text) + l.query[l.cursor..], l.cursor + 1)
    else l
  }

  /** The `default:` branch with the cursor moved past what was actually
      inserted, so that it stays inside the query. */
  function InsertText(l: Line, text: string): (r: Line)
    requires Valid(l)
    ensures Valid(r)
    ensures |text| == 1 ==> r.query == l.query[..l.cursor] + CString(text) + l.query[l.cursor..]
    ensures |text| == 1 ==> r.cursor == l.cursor + |CString(text)|
    ensures |text| != 1 ==> r == l
  {
    if |text| == 1 then
      var s := CString(text);
      Line(l.query[..l.cursor] + s + l.query[l.cursor..], l.cursor + |s|)
    else l
  }

  /** What a key press does to the query and the cursor. */
  function EditKey(l: Line, sym: KeySym, text: string): (r: Line)
    requires Valid(l)
    ensures Valid(r)
    ensures sym in {Left, Right, Home, End} ==> r.query == l.query
    ensures sym == Delete ==> r.cursor == l.cursor
    ensures sym in {Escape, Return, Up, Down} ==> r == l
  {
    match sym
    case Left => MoveLeft(l)
    case Right => MoveRight(l)
    case Home => l.(cursor := 0)
    case End => l.(cursor := |l.query|)
    case BackSpace => Backspace(l)
    case Delete => DeleteForward(l)
    case Other => InsertText(l, text)
    case _ => l
  }

  /** At the ends of the query the keys that would leave it do nothing. */
  lemma {:induction false} BoundaryKeysAreNoOps(l: Line, text: string)
    requires Valid(l)
    ensures l.cursor == 0 ==> EditKey(l, Left, text) == l && EditKey(l, BackSpace, text) == l
    ensures l.cursor == |l.query| ==> EditKey(l, Right, text) == l && EditKey(l, Delete, text) == l
  {
  }

  /** Typing one (non-NUL) character and then BackSpace gives back the
      query and cursor exactly. */
  lemma {:induction false} InsertThenBackspace(l: Line, c: char)
    requires Valid(l) && c != '\0'
    ensures EditKey(EditKey(l, Other, [c]), BackSpace, []) == l
  {
    var q, k := l.query, l.cursor;
    assert CString([c]) == [c] by { assert [c][1..] == []; }
    var m := EditKey(l, Other, [c]);
    assert m.query == q[..k] + [c] + q[k..];
    assert m.query[..k] == q[..k];
    assert m.query[k + 1..] == q[k..];
    assert q[..k] + q[k..] == q;
  }

  /** Typing one character and then Left, Delete also gives back the query,
      with the cursor left where the character was. */
  lemma {:induction false} InsertThenDelete(l: Line, c: char)
    requires Valid(l) && c != '\0'
    ensures EditKey(EditKey(EditKey(l, Other, [c]), Left, []), Delete, []) == l
  {
    var q, k := l.query, l.cursor;
    assert CString([c]) == [c] by { assert [c][1..] == []; }
    var m := EditKey(l, Other, [c]);
    assert m.query[..k] == q[..k];
    assert m.query[k + 1..] == q[k..];
    assert q[..k] + q[k..] == q;
  }

  /** The source's insertion of a NUL byte (`Ctrl+Space` or `Ctrl+@`, for
      which `XLookupString` returns one byte, 0): nothing is inserted but the
      cursor still moves, to one past the end of an unchanged query. */
  lemma {:induction false} InsertNulLeavesQueryBehindCursor(l: Line)
    requires Valid(l) && l.cursor == |l.query|
    ensures InsertAsWritten(l, "\0").query == l.query
    ensures InsertAsWritten(l, "\0").cursor == |l.query| + 1
    ensures !Valid(InsertAsWritten(l, "\0"))
  {
    assert CString("\0") == [];
    assert l.query[..l.cursor] == l.query;
  }

  // ---------------------------------------------------------- selection

  /** Up and Down in launcher.cpp on a list of `n` results.  Up below 0
      sets `results.size() - 1` (which is -1 for an empty list); Down resets
      to 0 when `selected >= results.size()` in the unsigned comparison,
      where a negative index counts as out of range. */
  function Navigate(selected: int, n: nat, sym: KeySym): int
  {
    match sym
    case Up => if selected - 1 < 0 then n - 1 else selected - 1
    case Down => if selected + 1 < 0 || selected + 1 >= n then 0 else selected + 1
    case _ => selected
  }

  /** The main loop after each search: an out-of-range (or negative)
      selection goes back to 0. */
  function Reselect(selected: int, n: nat): (r: int)
    ensures (n == 0 && r == 0) || 0 <= r < n
    ensures 0 <= selected < n ==> r == selected
  {
    if selected < 0 || selected >= n then 0 else selected
  }

  /** Down past the last result wraps to the first, Up above the first wraps
      to the last, and otherwise they move by one; both leave the selection
      inside the list. */
  lemma {:induction false} NavigationWraps(selected: int, n: nat)
    requires 0 <= selected < n
    ensures Navigate(selected, n, Down) == if selected == n - 1 then 0 else selected + 1
    ensures Navigate(selected, n, Up) == if selected == 0 then n - 1 else selected - 1
    ensures 0 <= Navigate(selected, n, Down) < n && 0 <= Navigate(selected, n, Up) < n
  {
  }

  /** With no results, Up and Down leave the selection at 0 once the main
      loop has run. */
  lemma {:induction false} NavigationOnEmptyList(selected: int, sym: KeySym)
    requires selected == 0
    ensures Reselect(Navigate(selected, 0, sym), 0) == 0
  {
  }
}
