/**
  The text editor: a modal state machine over a fixed buffer, whose cursor is kept three times over, as a
  position, as a row and as a column.
*/
module Editor {

  const MAX_BUFFER_SIZE := 32768
  const NOT_FOUND := 0xFFFF_FFFF_FFFF_FFFF   // the largest size_t

  const ESC: char := 27 as char
  const BACKSPACE: char := 8 as char
  const CTRL_S: char := 19 as char
  const CTRL_Q: char := 17 as char

  // ---------------------------------------------------------------- rows and columns

  /** Newlines before position `p`. */
  function Rows(text: string, p: nat): (r: nat)
    requires p <= |text|
    ensures r <= p
  {
    if p == 0 then 0 else Rows(text, p - 1) + if text[p - 1] == '\n' then 1 else 0
  }

  /** Distance of position `p` from the start of its line. */
  function Cols(text: string, p: nat): (c: nat)
    requires p <= |text|
    ensures c <= p
  {
    if p == 0 || text[p - 1] == '\n' then 0 else 1 + Cols(text, p - 1)
  }

  lemma {:induction false} RowsMonotone(text: string, p: nat, q: nat)
    requires p <= q <= |text|
    ensures Rows(text, p) <= Rows(text, q)
  {
    if p < q { RowsMonotone(text, p, q - 1); }
  }

  lemma {:induction false} SamePrefix(text: string, text': string, p: nat)
    requires p <= |text| && p <= |text'| && text[..p] == text'[..p]
    ensures Rows(text, p) == Rows(text', p) && Cols(text, p) == Cols(text', p)
  {
    if p > 0 {
      assert text[p - 1] == text[..p][p - 1] == text'[p - 1];
      assert text[..p - 1] == text[..p][..p - 1] == text'[..p - 1];
      SamePrefix(text, text', p - 1);
    }
  }

  /** The line that position `p` is on, up to `p`. */
  lemma {:induction false} LineBehind(text: string, p: nat)
    requires p <= |text|
    ensures var s := p - Cols(text, p);
      && Rows(text, s) == Rows(text, p) && (s == 0 || text[s - 1] == '\n')
      && forall i | s <= i < p :: text[i] != '\n'
  {
    if p > 0 && text[p - 1] != '\n' { LineBehind(text, p - 1); }
  }

  /** Along one row columns count positions. */
  lemma {:induction false} ColsGrow(text: string, p: nat, q: nat)
    requires p <= q <= |text| && Rows(text, p) == Rows(text, q)
    ensures Cols(text, q) == Cols(text, p) + (q - p)
  {
    if p < q {
      RowsMonotone(text, p, q - 1);
      ColsGrow(text, p, q - 1);
    }
  }

  /** Row and column determine the position. */
  lemma CursorInjective(text: string, p: nat, q: nat)
    requires p <= q <= |text| && Rows(text, p) == Rows(text, q) && Cols(text, p) == Cols(text, q)
    ensures p == q
  {
    ColsGrow(text, p, q);
  }

  // ---------------------------------------------------------------- lines

  /** The first position from `p` on row `row`, or the end. */
  function StartFrom(text: string, row: nat, p: nat): (s: nat)
    requires p <= |text|
    ensures p <= s <= |text| && (s < |text| ==> Rows(text, s) == row)
    decreases |text| - p
  {
    if p == |text| || Rows(text, p) == row then p else StartFrom(text, row, p + 1)
  }

  lemma {:induction false} StartIsFirst(text: string, row: nat, p: nat, q: nat)
    requires p <= |text| && p <= q < StartFrom(text, row, p)
    ensures Rows(text, q) != row
    decreases q - p
  {
    if p < q { StartIsFirst(text, row, p + 1, q); }
  }

  /** A scan that met no position of the row before `s`. */
  lemma {:induction false} StartIs(text: string, row: nat, p: nat, s: nat)
    requires p <= s <= |text| && (s < |text| ==> Rows(text, s) == row) && forall q | p <= q < s :: Rows(text, q) != row
    ensures StartFrom(text, row, p) == s
    decreases s - p
  {
    if p < s { StartIs(text, row, p + 1, s); }
  }

  function Start(text: string, row: nat): (s: nat)
    ensures s <= |text| && (s < |text| ==> Rows(text, s) == row)
  {
    StartFrom(text, row, 0)
  }

  /** The first newline from `p` that ends row `row`, or the end. */
  function EndFrom(text: string, row: nat, p: nat): (s: nat)
    requires p <= |text|
    ensures p <= s <= |text| && (s < |text| ==> text[s] == '\n' && Rows(text, s) == row)
    decreases |text| - p
  {
    if p == |text| || (text[p] == '\n' && Rows(text, p) == row) then p else EndFrom(text, row, p + 1)
  }

  lemma {:induction false} EndIsFirst(text: string, row: nat, p: nat, q: nat)
    requires p <= |text| && p <= q < EndFrom(text, row, p)
    ensures !(text[q] == '\n' && Rows(text, q) == row)
    decreases q - p
  {
    if p < q { EndIsFirst(text, row, p + 1, q); }
  }

  /** Positions that do not end the row may be skipped. */
  lemma {:induction false} EndIsLater(text: string, row: nat, p: nat, s: nat)
    requires p <= s <= |text| && forall q | p <= q < s :: !(text[q] == '\n' && Rows(text, q) == row)
    ensures EndFrom(text, row, p) == EndFrom(text, row, s)
    decreases s - p
  {
    if p < s { EndIsLater(text, row, p + 1, s); }
  }

  function End(text: string, row: nat): (s: nat)
    ensures s <= |text| && (s < |text| ==> text[s] == '\n' && Rows(text, s) == row)
  {
    EndFrom(text, row, 0)
  }

  /** The first position before the end with this row and column, or the end. */
  function LocateFrom(text: string, row: nat, col: nat, p: nat): (s: nat)
    requires p <= |text|
    ensures p <= s <= |text| && (s < |text| ==> Rows(text, s) == row && Cols(text, s) == col)
    decreases |text| - p
  {
    if p == |text| || (Rows(text, p) == row && Cols(text, p) == col) then p else LocateFrom(text, row, col, p + 1)
  }

  lemma {:induction false} LocateIsFirst(text: string, row: nat, col: nat, p: nat, q: nat)
    requires p <= |text| && p <= q < LocateFrom(text, row, col, p)
    ensures !(Rows(text, q) == row && Cols(text, q) == col)
    decreases q - p
  {
    if p < q { LocateIsFirst(text, row, col, p + 1, q); }
  }

  function Locate(text: string, row: nat, col: nat): (s: nat)
    ensures s <= |text| && (s < |text| ==> Rows(text, s) == row && Cols(text, s) == col)
  {
    LocateFrom(text, row, col, 0)
  }

  /** The length of a row; a row that starts at the end of the text counts as missing. */
  function LineLength(text: string, row: nat): nat {
    if Start(text, row) == |text| then NOT_FOUND
    else if End(text, row) < Start(text, row) then 0 else End(text, row) - Start(text, row)
  }

  /** The start of the row that position `p` is on. */
  lemma StartOfRow(text: string, p: nat)
    requires p <= |text|
    ensures Start(text, Rows(text, p)) == p - Cols(text, p)
  {
    LineBehind(text, p);
    var s := p - Cols(text, p);
    if s > 0 {
      forall q | 0 <= q < s ensures Rows(text, q) < Rows(text, p) { RowsMonotone(text, q, s - 1); }
    }
    StartIs(text, Rows(text, p), 0, s);
  }

  /** Everything from a row's start to its end is on that row and no newline. */
  lemma {:induction false} WithinRow(text: string, row: nat, p: nat)
    requires Start(text, row) <= p <= End(text, row) && Rows(text, Start(text, row)) == row
    ensures Rows(text, p) == row
  {
    if Start(text, row) < p {
      WithinRow(text, row, p - 1);
      EndIsFirst(text, row, 0, p - 1);
    }
  }

  /** Position `p` lies between the start and the end of its row. */
  lemma EndOfRow(text: string, p: nat)
    requires p <= |text|
    ensures p <= End(text, Rows(text, p))
  {
    var e := End(text, Rows(text, p));
    if e < p { RowsMonotone(text, e + 1, p); }
  }

  lemma RowStartsAtColumnZero(text: string, row: nat)
    requires Start(text, row) < |text|
    ensures var s := Start(text, row); Rows(text, s) == row && Cols(text, s) == 0 && s <= End(text, row)
  {
    var s := Start(text, row);
    EndOfRow(text, s);
    if s > 0 { StartIsFirst(text, row, 0, s - 1); }
  }

  /** No newline before its start ends a row. */
  lemma LineFromStart(text: string, row: nat)
    requires Start(text, row) < |text|
    ensures Start(text, row) <= End(text, row) == EndFrom(text, row, Start(text, row))
  {
    var s := Start(text, row);
    RowStartsAtColumnZero(text, row);
    forall q | 0 <= q < s ensures Rows(text, q) != row { StartIsFirst(text, row, 0, q); }
    EndIsLater(text, row, 0, s);
  }

  /** Going to a column of a row that is found lands on that row and column. */
  lemma GoesTo(text: string, row: nat, col: nat)
    requires Start(text, row) < |text| && col <= LineLength(text, row)
    ensures var p := Locate(text, row, col); p <= |text| && Rows(text, p) == row && Cols(text, p) == col
  {
    var s, p := Start(text, row), Start(text, row) + col;
    RowStartsAtColumnZero(text, row);
    WithinRow(text, row, p);
    ColsGrow(text, s, p);
    var q := Locate(text, row, col);
    if q < p { CursorInjective(text, q, p); }
    if p < q { LocateIsFirst(text, row, col, 0, p); }
  }

  // ---------------------------------------------------------------- keys

  /** One more and one less, as a size_t counts. */
  function Next(x: nat): nat { if x == NOT_FOUND then 0 else x + 1 }

  function Prev(x: nat): nat { if x == 0 then NOT_FOUND else x - 1 }

  datatype Mode = Normal | Insert | Visual

  datatype Ed = Ed(text: string, pos: nat, row: nat, col: nat, mode: Mode, selecting: bool,
                   selStart: nat, selEnd: nat, active: bool, modified: bool)

  /** The cursor's row and column are those of its position, which is in the text. */
  ghost predicate Coherent(e: Ed) {
    && e.pos <= |e.text| < MAX_BUFFER_SIZE
    && e.row == Rows(e.text, e.pos) && e.col == Cols(e.text, e.pos)
  }

  /** Coherent, and a selection spans existing rows up to the cursor's. */
  ghost predicate Good(e: Ed) {
    Coherent(e) && (e.mode == Visual ==> e.selEnd == e.row && e.selStart <= Rows(e.text, |e.text|))
  }

  function Opened(text: string): Ed { Ed(text, 0, 0, 0, Normal, false, 0, 0, true, false) }

  function Clip(col: nat, length: nat): nat { if col > length then length else col }

  /** The cursor on another row, its column clipped to that row; no move to a row that is not found. */
  function ToRow(e: Ed, row: nat): Ed {
    var n := LineLength(e.text, row);
    if n == NOT_FOUND then e else e.(row := row, col := Clip(e.col, n), pos := Locate(e.text, row, Clip(e.col, n)))
  }

  function Down(e: Ed): Ed { ToRow(e, Next(e.row)) }

  function Up(e: Ed): Ed { if e.row == 0 then e else ToRow(e, e.row - 1) }

  /** The text without its trailing newlines. */
  function Trimmed(text: string): (t: string)
    ensures t <= text && (|t| < |text| ==> text[|t|] == '\n')
  {
    if text != [] && text[|text| - 1] == '\n' then Trimmed(text[..|text| - 1]) else text
  }

  /** Saving trims the text whether or not the file system then accepts it. */
  function Saved(e: Ed, accepted: bool): Ed {
    var t := e.(text := Trimmed(e.text));
    if !accepted then t
    else if e.pos > |t.text| then t.(modified := false, pos := Locate(t.text, e.row, e.col))
    else t.(modified := false)
  }

  function Closed(e: Ed): Ed {
    e.(active := false, text := "", pos := 0, row := 0, col := 0, mode := Normal, modified := false)
  }

  function InsertMode(e: Ed): Ed { e.(mode := Insert, selecting := false) }

  function NormalKey(e: Ed, c: char, accepted: bool): Ed
    requires e.pos <= |e.text|
  {
    if c == 'i' || c == 'a' then InsertMode(e)
    else if c == 's' then
      InsertMode(if e.pos < |e.text| then e.(text := e.text[..e.pos] + e.text[e.pos + 1..], modified := true) else e)
    else if c == 'J' || c == 'K' then e.(mode := Visual, selecting := true, selStart := e.row, selEnd := e.row)
    else if c == CTRL_S then Saved(e, accepted)
    else if c == CTRL_Q then Closed(e)
    else if c == 'h' && e.col > 0 then e.(col := e.col - 1, pos := Prev(e.pos))
    else if c == 'l' && e.col < LineLength(e.text, e.row) then e.(col := e.col + 1, pos := e.pos + 1)
    else if c == 'k' then Up(e)
    else if c == 'j' then Down(e)
    else e
  }

  function Inserted(e: Ed, c: char): Ed
    requires e.pos <= |e.text|
  {
    var t := e.(text := e.text[..e.pos] + [c] + e.text[e.pos..], pos := e.pos + 1, modified := true);
    if c == '\n' then t.(row := Next(e.row), col := 0) else t.(col := Next(e.col))
  }

  function Erased(e: Ed): Ed
    requires 0 < e.pos <= |e.text|
  {
    var t := e.(text := e.text[..e.pos - 1] + e.text[e.pos..], pos := e.pos - 1, modified := true);
    if e.text[e.pos - 1] == '\n'
    then t.(row := Prev(e.row), col := Cols(t.text, t.pos))
    else t.(col := if e.col > 0 then e.col - 1 else 0)
  }

  function InsertKey(e: Ed, c: char): Ed
    requires e.pos <= |e.text|
  {
    if c == CTRL_S || c == CTRL_Q then e
    else if c == BACKSPACE && e.pos > 0 then Erased(e)
    else if ' ' <= c <= '~' && |e.text| < MAX_BUFFER_SIZE - 1 then Inserted(e, c)
    else if (c == '\r' || c == '\n') && |e.text| < MAX_BUFFER_SIZE - 1 then Inserted(e, '\n')
    else e
  }

  /** The selected rows, in order. */
  function FirstSelected(e: Ed): nat { if e.selStart < e.selEnd then e.selStart else e.selEnd }

  function LastSelected(e: Ed): nat { if e.selStart < e.selEnd then e.selEnd else e.selStart }

  /** Where the selection starts: at the first selected row or, if that is past the text, at the last line. */
  function CutStart(e: Ed): (s: nat)
    ensures s <= |e.text|
  {
    var p := Start(e.text, FirstSelected(e));
    p - Cols(e.text, p)
  }

  /** Where it ends: before the newline that many rows on, or at the end of the text. */
  function CutEnd(e: Ed): (t: nat)
    ensures CutStart(e) <= t <= |e.text|
  {
    EndFrom(e.text, Rows(e.text, CutStart(e)) + (LastSelected(e) - FirstSelected(e)), CutStart(e))
  }

  lemma CutIs(e: Ed, text: string, first: nat, last: nat, s: nat, t: nat)
    requires text == e.text && first == FirstSelected(e) && last == LastSelected(e)
    requires var p := Start(text, first); p <= |text| && s == p - Cols(text, p)
    requires t == EndFrom(text, Rows(text, s) + (last - first), s)
    ensures s == CutStart(e) && t == CutEnd(e) && Cols(text, s) == 0
  {
    LineBehind(text, Start(text, first));
  }

  /** Delete the selected rows, except the newline that ends the last of them. */
  function LinesDeleted(e: Ed): Ed {
    var s, t := CutStart(e), CutEnd(e);
    if t > s
    then e.(text := e.text[..s] + e.text[t..], pos := s, row := FirstSelected(e), col := 0, modified := true)
    else e
  }

  /** After a move, the selection ends at the cursor's row. */
  function Reselected(e: Ed, t: Ed): Ed { if t.row == e.row then e else t.(selEnd := t.row) }

  function VisualKey(e: Ed, c: char): Ed {
    if c == 'a' then InsertMode(e)
    else if c == 's' then InsertMode(LinesDeleted(e))
    else if c == 'J' then Reselected(e, Down(e))
    else if c == 'K' then Reselected(e, Up(e))
    else e
  }

  /** One keypress; `accepted` is the file system's answer to a save. */
  function Key(e: Ed, c: char, accepted: bool): Ed
    requires e.pos <= |e.text|
  {
    if !e.active then e
    else if c == ESC then e.(mode := Normal, selecting := false)
    else match e.mode
      case Normal => NormalKey(e, c, accepted)
      case Insert => InsertKey(e, c)
      case Visual => VisualKey(e, c)
  }

  // ---------------------------------------------------------------- coherence

  /** The two keypresses after which the cursor is wrong: `l` on an empty last line, and a save that trims
      the text to before the cursor. */
  predicate Derails(e: Ed, c: char) {
    && e.active && e.mode == Normal
    && ((c == 'l' && e.pos == |e.text| && (e.text == "" || e.text[|e.text| - 1] == '\n')) ||
        (c == CTRL_S && e.pos > |Trimmed(e.text)|))
  }

  /** The cursor's own row is not found exactly on an empty last line. */
  lemma OwnRowMissing(e: Ed)
    requires Coherent(e)
    ensures LineLength(e.text, e.row) == NOT_FOUND <==>
        e.pos == |e.text| && (e.text == "" || e.text[|e.text| - 1] == '\n')
    ensures LineLength(e.text, e.row) != NOT_FOUND ==>
      e.col <= LineLength(e.text, e.row) &&
          (e.col < LineLength(e.text, e.row) ==> e.pos < |e.text| && e.text[e.pos] != '\n')
  {
    StartOfRow(e.text, e.pos);
    EndOfRow(e.text, e.pos);
    if e.pos < End(e.text, e.row) { EndIsFirst(e.text, e.row, 0, e.pos); }
  }

  lemma MoveKeeps(e: Ed, row: nat)
    requires Coherent(e)
    ensures Coherent(ToRow(e, row))
  {
    var n := LineLength(e.text, row);
    if n != NOT_FOUND { GoesTo(e.text, row, Clip(e.col, n)); }
  }

  lemma DownKeeps(e: Ed)
    requires Coherent(e)
    ensures Coherent(Down(e))
  {
    MoveKeeps(e, Next(e.row));
  }

  lemma UpKeeps(e: Ed)
    requires Coherent(e)
    ensures Coherent(Up(e))
  {
    if e.row > 0 { MoveKeeps(e, e.row - 1); }
  }

  /** A save keeps the cursor right exactly when it does not trim to before it. */
  lemma SaveKeeps(e: Ed, accepted: bool)
    requires Coherent(e)
    ensures Coherent(Saved(e, accepted)) <==> e.pos <= |Trimmed(e.text)|
  {
    var t := Trimmed(e.text);
    if e.pos <= |t| {
      SamePrefix(e.text, t, e.pos);
    } else if accepted {
      RowsMonotone(e.text, |t| + 1, e.pos);
      SamePrefix(e.text, t, |t|);
      RowsMonotone(t, Locate(t, e.row, e.col), |t|);
    }
  }

  lemma DeleteKeeps(e: Ed)
    requires Coherent(e)
    ensures Coherent(NormalKey(e, 's', false))
  {
    if e.pos < |e.text| { SamePrefix(e.text, e.text[..e.pos] + e.text[e.pos + 1..], e.pos); }
  }

  lemma LeftKeeps(e: Ed)
    requires Coherent(e)
    ensures Coherent(NormalKey(e, 'h', false))
  {
  }

  lemma RightKeeps(e: Ed)
    requires Coherent(e) && e.active && e.mode == Normal
    ensures Coherent(NormalKey(e, 'l', false)) <==> !Derails(e, 'l')
  {
    OwnRowMissing(e);
  }

  lemma NormalKeeps(e: Ed, c: char, accepted: bool)
    requires Coherent(e) && e.active && e.mode == Normal
    ensures Coherent(NormalKey(e, c, accepted)) <==> !Derails(e, c)
  {
    if c == CTRL_S {
      SaveKeeps(e, accepted);
    } else if c != CTRL_Q {
      assert NormalKey(e, c, accepted) == NormalKey(e, c, false);
      if c == 's' { DeleteKeeps(e); }
      else if c == 'h' { LeftKeeps(e); }
      else if c == 'l' { RightKeeps(e); }
      else if c == 'k' { UpKeeps(e); }
      else if c == 'j' { DownKeeps(e); }
    }
  }

  lemma InsertKeeps(e: Ed, c: char)
    requires Coherent(e) && |e.text| < MAX_BUFFER_SIZE - 1
    ensures Coherent(Inserted(e, c))
  {
    SamePrefix(e.text, Inserted(e, c).text, e.pos);
  }

  lemma EraseKeeps(e: Ed)
    requires Coherent(e) && e.pos > 0
    ensures Coherent(Erased(e))
  {
    SamePrefix(e.text, Erased(e).text, e.pos - 1);
  }

  /** Every row up to the last is met on the way. */
  lemma {:induction false} RowIsMet(text: string, row: nat, p: nat) returns (q: nat)
    requires p <= |text| && row <= Rows(text, p)
    ensures q <= p && Rows(text, q) == row
  {
    if Rows(text, p) == row { q := p; } else { q := RowIsMet(text, row, p - 1); }
  }

  /** From the start of a row to the end of a later one. */
  lemma RowRange(text: string, first: nat, last: nat, s: nat)
    requires first <= last && first <= Rows(text, |text|) && s == Start(text, first)
    ensures Rows(text, s) == first && Cols(text, s) == 0 && EndFrom(text, last, s) == End(text, last)
  {
    var q := RowIsMet(text, first, |text|);
    StartOfRow(text, q);
    LineBehind(text, q);
    forall p | 0 <= p < s ensures !(text[p] == '\n' && Rows(text, p) == last) { RowsMonotone(text, p + 1, s); }
    EndIsLater(text, last, 0, s);
  }

  /** The range a selection of existing rows covers: from the start of the first to the end of the last. */
  lemma SelectedRange(e: Ed)
    requires Good(e) && e.mode == Visual
    ensures CutStart(e) == Start(e.text, FirstSelected(e)) && CutEnd(e) == End(e.text, LastSelected(e))
    ensures Rows(e.text, CutStart(e)) == FirstSelected(e) && Cols(e.text, CutStart(e)) == 0
  {
    LastRow(e);
    RowRange(e.text, FirstSelected(e), LastSelected(e), Start(e.text, FirstSelected(e)));
  }

  lemma LinesDeletedKeeps(e: Ed)
    requires Good(e) && e.mode == Visual
    ensures Coherent(LinesDeleted(e))
  {
    SelectedRange(e);
    if LinesDeleted(e) != e { SamePrefix(e.text, LinesDeleted(e).text, CutStart(e)); }
  }

  lemma LastRow(e: Ed)
    requires Coherent(e)
    ensures e.row <= Rows(e.text, |e.text|)
  {
    RowsMonotone(e.text, e.pos, |e.text|);
  }

  lemma TypingKeeps(e: Ed, c: char)
    requires Coherent(e)
    ensures Coherent(InsertKey(e, c))
  {
    if c == BACKSPACE && e.pos > 0 { EraseKeeps(e); }
    if |e.text| < MAX_BUFFER_SIZE - 1 { InsertKeeps(e, if c == '\r' then '\n' else c); }
  }

  lemma VisualKeeps(e: Ed, c: char)
    requires Good(e) && e.mode == Visual
    ensures Good(VisualKey(e, c))
  {
    if c == 's' { LinesDeletedKeeps(e); }
    else if c == 'J' { DownKeeps(e); }
    else if c == 'K' { UpKeeps(e); }
  }

  lemma NormalKeyKeeps(e: Ed, c: char, accepted: bool)
    requires Good(e) && e.active && e.mode == Normal
    ensures Good(NormalKey(e, c, accepted)) <==> !Derails(e, c)
  {
    LastRow(e);
    NormalKeeps(e, c, accepted);
  }

  /** One keypress keeps the cursor right, unless and only unless it derails. */
  lemma KeyKeeps(e: Ed, c: char, accepted: bool)
    requires Good(e)
    ensures Good(Key(e, c, accepted)) <==> !Derails(e, c)
  {
    if e.active && c != ESC {
      match e.mode
      case Normal => NormalKeyKeeps(e, c, accepted);
      case Insert => TypingKeeps(e, c);
      case Visual => VisualKeeps(e, c);
    }
  }

  // ---------------------------------------------------------------- every run

  datatype Press = Press(key: char, accepted: bool)

  /** No keypress of the run derails. */
  ghost predicate OnTrack(e: Ed, ps: seq<Press>)
    decreases |ps|
  {
    e.pos <= |e.text| && (ps == [] || (!Derails(e, ps[0].key) && OnTrack(Key(e, ps[0].key, ps[0].accepted), ps[1..])))
  }

  /** The cursor is right in every state of the run. */
  ghost predicate AlwaysGood(e: Ed, ps: seq<Press>)
    decreases |ps|
  {
    Good(e) && (ps == [] || AlwaysGood(Key(e, ps[0].key, ps[0].accepted), ps[1..]))
  }

  /** Over any sequence of keypresses the cursor stays right exactly when none of them derails. */
  lemma {:induction false} EveryRun(e: Ed, ps: seq<Press>)
    requires Good(e)
    ensures AlwaysGood(e, ps) <==> OnTrack(e, ps)
    decreases |ps|
  {
    if ps != [] {
      KeyKeeps(e, ps[0].key, ps[0].accepted);
      if !Derails(e, ps[0].key) { EveryRun(Key(e, ps[0].key, ps[0].accepted), ps[1..]); }
    }
  }

  /** Both ways off the track, from an empty text: `l`; and a newline typed, escape and a save. */
  lemma WaysOffTrack()
    ensures Good(Opened(""))
    ensures var e := Key(Opened(""), 'l', true); e.pos == 1 > |e.text|
    ensures var e := Typed(); Good(e) && e.text == "\n" && e.row == 1
    ensures var e := Key(Typed(), CTRL_S, true); e.text == "" && e.pos == 0 && e.row == 1 && !Coherent(e)
  {
    var e := Typed();
    assert e.text == "\n";
    assert Rows(e.text, 0) == 0 && Rows(e.text, 1) == 1;
    assert e.text[..0] == "";
    assert Trimmed(e.text) == "";
  }

  /** The editor opened on an empty text, after `i`, a newline and escape. */
  function Typed(): Ed {
    var a := Key(Opened(""), 'i', true);
    var b := Key(a, '\n', true);
    Key(b, ESC, true)
  }

  // ---------------------------------------------------------------- what each key does to the text

  /** Everything but the text, the cursor and the mark of a change. */
  predicate SameSettings(e: Ed, t: Ed) {
    t.mode == e.mode && t.selecting == e.selecting && t.selStart == e.selStart && t.selEnd == e.selEnd &&
    t.active == e.active
  }

  /** Only the cursor differs. */
  predicate OnlyCursor(e: Ed, t: Ed) { t == e.(row := t.row, col := t.col, pos := t.pos) }

  /** A printable key puts its character at the cursor, either end-of-line key a newline, while the buffer has room;
      backspace takes out the character before the cursor; every other key does nothing. */
  predicate InsertLaw(e: Ed, c: char, t: Ed)
    requires e.pos <= |e.text|
  {
    if c == 8 as char && e.pos > 0 then
      && t.text == e.text[..e.pos - 1] + e.text[e.pos..] && t.pos == e.pos - 1 && t.modified && SameSettings(e, t)
    else if (' ' <= c <= '~' || c == '\r' || c == '\n') && |e.text| < 32767 then
      && t.text == e.text[..e.pos] + [if c < ' ' then '\n' else c] + e.text[e.pos..]
      && t.pos == e.pos + 1 && t.modified && SameSettings(e, t)
    else t == e
  }

  /** A save takes off trailing newlines and no more. */
  ghost predicate SaveLaw(e: Ed, t: Ed) {
    && t.text <= e.text && (forall i | |t.text| <= i < |e.text| :: e.text[i] == '\n')
    && (t.text != "" ==> t.text[|t.text| - 1] != '\n')
    && SameSettings(e, t) && t.row == e.row && t.col == e.col && (e.pos <= |t.text| ==> t.pos == e.pos)
  }

  ghost predicate NormalLaw(e: Ed, c: char, t: Ed)
    requires e.pos <= |e.text|
  {
    if c == 'i' || c == 'a' then t == e.(mode := Insert, selecting := false)
    else if c == 's' then
      && (e.pos < |e.text| ==> t == e.(text := e.text[..e.pos] + e.text[e.pos + 1..], modified := true, mode := Insert,
                                       selecting := false))
      && (e.pos == |e.text| ==> t == e.(mode := Insert, selecting := false))
    else if c == 'J' || c == 'K' then t == e.(mode := Visual, selecting := true, selStart := e.row, selEnd := e.row)
    else if c == 19 as char then SaveLaw(e, t)
    else if c == 17 as char then
      t == e.(active := false, text := "", pos := 0, row := 0, col := 0, mode := Normal, modified := false)
    else if c == 'h' && e.col > 0 && e.pos > 0 then t == e.(col := e.col - 1, pos := e.pos - 1)
    else if c == 'h' || c == 'l' || c == 'j' || c == 'k' then OnlyCursor(e, t)
    else t == e
  }

  ghost predicate VisualLaw(e: Ed, c: char, t: Ed) {
    if c == 'a' then t == e.(mode := Insert, selecting := false)
    else if c == 's' then t.mode == Insert && !t.selecting && t.active == e.active
    else if c == 'J' || c == 'K' then t == e.(row := t.row, col := t.col, pos := t.pos, selEnd := t.selEnd)
    else t == e
  }

  /** What a key does, in any state whose position is in the text. */
  ghost predicate Obeys(e: Ed, c: char, t: Ed)
    requires e.pos <= |e.text|
  {
    if !e.active then t == e
    else if c == 27 as char then t == e.(mode := Normal, selecting := false)
    else match e.mode
      case Normal => NormalLaw(e, c, t)
      case Insert => InsertLaw(e, c, t)
      case Visual => VisualLaw(e, c, t)
  }

  lemma {:induction false} TrimmedExactly(text: string)
    ensures forall i | |Trimmed(text)| <= i < |text| :: text[i] == '\n'
    ensures Trimmed(text) != "" ==> Trimmed(text)[|Trimmed(text)| - 1] != '\n'
  {
    if text != [] && text[|text| - 1] == '\n' { TrimmedExactly(text[..|text| - 1]); }
  }

  lemma KeyObeys(e: Ed, c: char, accepted: bool)
    requires e.pos <= |e.text|
    ensures Obeys(e, c, Key(e, c, accepted))
  {
    if e.active && c != ESC {
      match e.mode
      case Normal => NormalObeys(e, c, accepted);
      case Insert => InsertObeys(e, c);
      case Visual =>
    }
  }

  lemma InsertObeys(e: Ed, c: char)
    requires e.pos <= |e.text|
    ensures InsertLaw(e, c, InsertKey(e, c))
  {}

  lemma SaveObeys(e: Ed, accepted: bool)
    ensures SaveLaw(e, Saved(e, accepted))
  {
    TrimmedExactly(e.text);
  }

  lemma NormalObeys(e: Ed, c: char, accepted: bool)
    requires e.pos <= |e.text|
    ensures NormalLaw(e, c, NormalKey(e, c, accepted))
  {
    if c == CTRL_S { SaveObeys(e, accepted); }
  }

  // ---------------------------------------------------------------- moving between rows

  /** The text has a character on this row. */
  ghost predicate HasRow(text: string, row: nat) { exists q :: 0 <= q < |text| && Rows(text, q) == row }

  /** The cursor goes to this row if there is one: to its own column or, on a shorter line, to the end. */
  ghost predicate GoesToRow(e: Ed, row: nat, t: Ed) {
    if HasRow(e.text, row)
    then t.row == row && t.col <= e.col && t.pos <= |e.text| &&
      (t.col < e.col ==> t.pos == |e.text| || e.text[t.pos] == '\n')
    else t.row == e.row && t.col == e.col && t.pos == e.pos
  }

  lemma FoundExactly(text: string, row: nat)
    requires |text| < MAX_BUFFER_SIZE
    ensures LineLength(text, row) != NOT_FOUND <==> HasRow(text, row)
  {
    var s := Start(text, row);
    if s == |text| {
      forall q | 0 <= q < |text| ensures Rows(text, q) != row { StartIsFirst(text, row, 0, q); }
    }
  }

  /** The position at the end of a row. */
  lemma EndsRow(text: string, p: nat, s: nat, t: nat)
    requires p <= |text| && s == Start(text, Rows(text, p)) && t == End(text, Rows(text, p)) && Cols(text, p) == t - s
    ensures p == t
  {
    StartOfRow(text, p);
  }

  lemma ClippedEnds(text: string, row: nat, p: nat)
    requires Start(text, row) < |text| && p <= |text| && Rows(text, p) == row && Cols(text, p) == LineLength(text, row)
    ensures p == |text| || text[p] == '\n'
  {
    LineFromStart(text, row);
    EndsRow(text, p, Start(text, row), End(text, row));
  }

  lemma ToRowGoes(e: Ed, row: nat)
    requires Coherent(e)
    ensures GoesToRow(e, row, ToRow(e, row))
  {
    FoundExactly(e.text, row);
    var n := LineLength(e.text, row);
    if n != NOT_FOUND {
      GoesTo(e.text, row, Clip(e.col, n));
      if e.col > n { ClippedEnds(e.text, row, ToRow(e, row).pos); }
    }
  }

  /** Rows before the cursor's are all there. */
  lemma RowAbove(e: Ed)
    requires Coherent(e) && e.row > 0
    ensures HasRow(e.text, e.row - 1)
  {
    var q := RowIsMet(e.text, e.row - 1, e.pos);
    assert q < |e.text|;
  }

  /** `h` and `l` move by one within the line; `l` is left open on an empty last line. */
  ghost predicate MovesSideways(e: Ed, c: char, t: Ed)
    requires e.pos <= |e.text|
  {
    && (c == 'h' ==> t.pos == if e.pos == 0 || e.text[e.pos - 1] == '\n' then e.pos else e.pos - 1)
    && (c == 'l' && e.text != "" && !(e.pos == |e.text| && e.text[e.pos - 1] == '\n') ==>
          t.pos == if e.pos == |e.text| || e.text[e.pos] == '\n' then e.pos else e.pos + 1)
  }

  ghost predicate GoesDown(e: Ed, t: Ed) { GoesToRow(e, e.row + 1, t) }

  ghost predicate GoesUp(e: Ed, t: Ed) {
    if e.row == 0 then t == e else HasRow(e.text, e.row - 1) && GoesToRow(e, e.row - 1, t)
  }

  /** The moves of a cursor that is right: in normal mode `j` and `k` to the next and previous row, and in visual mode
      `J` and `K` with the selection following; `s` there deletes the selected rows. */
  ghost predicate Moves(e: Ed, c: char, t: Ed)
    requires e.pos <= |e.text|
  {
    match e.mode
    case Insert => true
    case Normal => MovesSideways(e, c, t) && (c == 'j' ==> GoesDown(e, t)) && (c == 'k' ==> GoesUp(e, t))
    case Visual =>
      && (c == 'J' ==> GoesDown(e, t)) && (c == 'K' ==> GoesUp(e, t)) && (c == 'J' || c == 'K' ==> t.selEnd == t.row)
      && (c == 's' ==> CutsRows(e, t))
  }

  // ---------------------------------------------------------------- deleting the selected rows

  /** What is cut is the text of the selected rows, without the newline that ends the last of them; every character
      before and after stays. */
  ghost predicate Cuts(text: string, text': string, first: nat, last: nat, s: nat, t: nat) {
    && s <= t <= |text| && text' == text[..s] + text[t..]
    && (forall i: nat | i < s :: Rows(text, i) < first)
    && (forall i: nat | s <= i < t :: first <= Rows(text, i) <= last)
    && (forall i: nat | t <= i < |text| :: Rows(text, i) > last || (i == t && text[i] == '\n'))
  }

  ghost predicate CutsRows(e: Ed, t: Ed) {
    var first, last := if e.selStart < e.selEnd then e.selStart else e.selEnd,
                       if e.selStart < e.selEnd then e.selEnd else e.selStart;
    exists a: nat, b: nat :: Cuts(e.text, t.text, first, last, a, b) && (a < b ==> t.pos == a && t.row == first)
  }

  lemma {:induction false} RowsUpToEnd(text: string, last: nat, q: nat)
    requires q <= End(text, last)
    ensures Rows(text, q) <= last
  {
    if q > 0 {
      RowsUpToEnd(text, last, q - 1);
      EndIsFirst(text, last, 0, q - 1);
    }
  }

  lemma RangeCuts(text: string, first: nat, last: nat, s: nat, t: nat)
    requires s <= t <= |text| && s == Start(text, first) && t == End(text, last) && Rows(text, s) == first
    ensures Cuts(text, text[..s] + text[t..], first, last, s, t)
  {
    forall i: nat | i < s ensures Rows(text, i) < first {
      StartIsFirst(text, first, 0, i);
      RowsMonotone(text, i, s);
    }
    forall i: nat | s <= i < t ensures first <= Rows(text, i) <= last {
      RowsMonotone(text, s, i);
      RowsUpToEnd(text, last, i);
    }
    forall i: nat | t <= i < |text| ensures Rows(text, i) > last || (i == t && text[i] == '\n') {
      if i > t { RowsMonotone(text, t + 1, i); }
    }
  }

  lemma CutsTheRows(e: Ed, t: Ed, first: nat, last: nat, a: nat, b: nat)
    requires first == FirstSelected(e) && last == LastSelected(e) && Cuts(e.text, t.text, first, last, a, b)
    requires a < b ==> t.pos == a && t.row == first
    ensures CutsRows(e, t)
  {}

  lemma CutsNothing(text: string, s: nat)
    requires s <= |text|
    ensures text[..s] + text[s..] == text
  {}

  lemma DeletesRows(e: Ed)
    requires Good(e) && e.mode == Visual
    ensures CutsRows(e, LinesDeleted(e))
  {
    SelectedRange(e);
    var s, t, r := CutStart(e), CutEnd(e), LinesDeleted(e);
    RangeCuts(e.text, FirstSelected(e), LastSelected(e), s, t);
    CutsNothing(e.text, s);
    assert r.text == e.text[..s] + e.text[t..];
    CutsTheRows(e, r, FirstSelected(e), LastSelected(e), s, t);
  }

  lemma KeyMoves(e: Ed, c: char, accepted: bool)
    requires Good(e) && e.active && c != ESC
    ensures Moves(e, c, Key(e, c, accepted))
  {
    match e.mode
    case Insert =>
    case Normal => NormalMoves(e, c, accepted);
    case Visual => VisualMoves(e, c);
  }

  lemma DownGoes(e: Ed)
    requires Coherent(e)
    ensures GoesDown(e, Down(e)) && Down(e).selEnd == e.selEnd
  {
    ToRowGoes(e, e.row + 1);
  }

  lemma UpGoes(e: Ed)
    requires Coherent(e)
    ensures GoesUp(e, Up(e)) && Up(e).selEnd == e.selEnd
  {
    if e.row > 0 {
      RowAbove(e);
      ToRowGoes(e, e.row - 1);
    }
  }

  lemma SidewaysMoves(e: Ed, c: char, accepted: bool)
    requires Coherent(e)
    ensures MovesSideways(e, c, NormalKey(e, c, accepted))
  {
    OwnRowMissing(e);
    if LineLength(e.text, e.row) != NOT_FOUND { StopsAtEnd(e); }
  }

  lemma NormalMoves(e: Ed, c: char, accepted: bool)
    requires Good(e) && e.mode == Normal
    ensures Moves(e, c, NormalKey(e, c, accepted))
  {
    SidewaysMoves(e, c, accepted);
    if c == 'j' { DownGoes(e); }
    if c == 'k' { UpGoes(e); }
  }

  lemma VisualMoves(e: Ed, c: char)
    requires Good(e) && e.mode == Visual
    ensures Moves(e, c, VisualKey(e, c))
  {
    if c == 'J' { DownGoes(e); }
    if c == 'K' { UpGoes(e); }
    if c == 's' { DeletesRows(e); }
  }

  /** At the end of its line the cursor's column is the line's length. */
  lemma StopsAtEnd(e: Ed)
    requires Coherent(e) && LineLength(e.text, e.row) != NOT_FOUND
    ensures e.col < LineLength(e.text, e.row) <==> e.pos < |e.text| && e.text[e.pos] != '\n'
  {
    OwnRowMissing(e);
    StartOfRow(e.text, e.pos);
    EndOfRow(e.text, e.pos);
    if e.pos < |e.text| && e.text[e.pos] != '\n' { assert End(e.text, e.row) != e.pos; }
  }

  // ---------------------------------------------------------------- keys that undo each other

  lemma EraseInserted(e: Ed, c: char)
    requires Coherent(e)
    ensures Erased(Inserted(e, c)) == e.(modified := true)
  {
    var t := Inserted(e, c);
    assert t.text[t.pos - 1] == c;
    assert t.text[..t.pos - 1] == e.text[..e.pos] && t.text[t.pos..] == e.text[e.pos..];
    CutsNothing(e.text, e.pos);
  }

  /** Typing a character and backspace restore the text and the cursor. */
  lemma TypeThenErase(e: Ed, c: char, accepted: bool)
    requires Coherent(e) && e.active && e.mode == Insert && |e.text| < 32767
    requires ' ' <= c <= '~' || c == '\r' || c == '\n'
    ensures var t := Key(e, c, accepted);
      t.pos <= |t.text| && Key(t, 8 as char, accepted) == e.(modified := true)
  {
    var x := if c < ' ' then '\n' else c;
    assert Key(e, c, accepted) == Inserted(e, x);
    EraseInserted(e, x);
  }

  /** Back to a row where the cursor was, in the same column. */
  lemma Returns(e: Ed, t: Ed)
    requires Coherent(e) && Coherent(t) && t.text == e.text && t.col == e.col && HasRow(e.text, e.row)
    ensures ToRow(t, e.row) == t.(row := e.row, pos := e.pos)
  {
    FoundExactly(e.text, e.row);
    OwnRowMissing(e);
    GoesTo(e.text, e.row, e.col);
    var q := Locate(e.text, e.row, e.col);
    if q < e.pos { CursorInjective(e.text, q, e.pos); } else { CursorInjective(e.text, e.pos, q); }
  }

  lemma UpAfterDown(e: Ed, t: Ed)
    requires Coherent(e) && t == Down(e) && t.row != e.row && t.col == e.col
    ensures Coherent(t) && Up(t) == e
  {
    DownKeeps(e);
    RowAbove(t);
    Returns(e, t);
  }

  lemma DownAfterUp(e: Ed, t: Ed)
    requires Coherent(e) && t == Up(e) && t.row != e.row && t.col == e.col
    ensures Coherent(t) && (Down(t) == e <==> HasRow(e.text, e.row))
  {
    UpKeeps(e);
    if HasRow(e.text, e.row) { Returns(e, t); } else { FoundExactly(e.text, e.row); }
  }

  /** `j` and then `k` come back where the other row is long enough; */
  lemma DownThenUp(e: Ed, accepted: bool)
    requires Coherent(e) && e.active && e.mode == Normal
    ensures var t := Key(e, 'j', accepted);
      t.pos <= |t.text| && (t.row != e.row && t.col == e.col ==> Key(t, 'k', accepted) == e)
  {
    var t := Down(e);
    DownKeeps(e);
    assert Key(e, 'j', accepted) == t && Key(t, 'k', accepted) == Up(t);
    if t.row != e.row && t.col == e.col { UpAfterDown(e, t); }
  }

  /** `k` and then `j` exactly if the cursor was not on an empty line at the end of the text, */
  lemma UpThenDown(e: Ed, accepted: bool)
    requires Coherent(e) && e.active && e.mode == Normal
    ensures var t := Key(e, 'k', accepted);
      t.pos <= |t.text| &&
      (t.row != e.row && t.col == e.col ==>
        (Key(t, 'j', accepted) == e <==> e.pos < |e.text| || e.text[e.pos - 1] != '\n'))
  {
    var t := Up(e);
    UpKeeps(e);
    assert Key(e, 'k', accepted) == t && Key(t, 'j', accepted) == Down(t);
    if t.row != e.row && t.col == e.col {
      DownAfterUp(e, t);
      FoundExactly(e.text, e.row);
      OwnRowMissing(e);
    }
  }

  lemma OneNewline(text: string)
    requires text == "\n"
    ensures Rows(text, 0) == 0 && Rows(text, 1) == 1 && Cols(text, 0) == 0 && Cols(text, 1) == 0
    ensures HasRow(text, 0) && !HasRow(text, 1)
  {}

  /** as from the second row of a single newline. */
  lemma NoWayDown(e: Ed, accepted: bool)
    requires e == Ed("\n", 1, 1, 0, Normal, false, 0, 0, true, false)
    ensures Coherent(e)
    ensures var t := Key(e, 'k', accepted); t.row == 0 && t.pos <= |t.text| && Key(t, 'j', accepted) == t
  {
    OneNewline(e.text);
    var t := Up(e);
    UpKeeps(e);
    ToRowGoes(e, 0);
    FoundExactly(e.text, 1);
    assert Key(e, 'k', accepted) == t && Key(t, 'j', accepted) == Down(t);
  }

  // ---------------------------------------------------------------- the editor in place

  /** A block of `count` characters copied from `src` to `dest`. */
  function Copied(b: string, dest: nat, src: nat, count: nat): (r: string)
    requires dest + count <= |b| && src + count <= |b|
    ensures |r| == |b|
    ensures forall i {:trigger r[i]} | 0 <= i < |b| ::
              r[i] == if dest <= i < dest + count then b[src + i - dest] else b[i]
  {
    b[..dest] + b[src..src + count] + b[dest + count..]
  }

  /** The two directions of the copying loop give the same, whether or not the blocks overlap. */
  method MemMove(buffer: array<char>, dest: nat, src: nat, count: nat)
    requires dest + count <= buffer.Length && src + count <= buffer.Length
    modifies buffer
    ensures buffer[..] == Copied(old(buffer[..]), dest, src, count)
  {
    ghost var was, goal := buffer[..], Copied(buffer[..], dest, src, count);
    if dest < src {
      var k := 0;
      while k < count
        invariant 0 <= k <= count
        invariant forall i | 0 <= i < dest + k :: buffer[i] == goal[i]
        invariant forall i | dest + k <= i < buffer.Length :: buffer[i] == was[i]
      {
        assert goal[dest + k] == was[src + k] == buffer[src + k];
        buffer[dest + k] := buffer[src + k];
        k := k + 1;
      }
    } else {
      var k := count;
      while k > 0
        invariant 0 <= k <= count
        invariant forall i | 0 <= i < dest + k :: buffer[i] == was[i]
        invariant forall i | dest + k <= i < buffer.Length :: buffer[i] == goal[i]
      {
        k := k - 1;
        assert goal[dest + k] == was[src + k] == buffer[src + k];
        buffer[dest + k] := buffer[src + k];
      }
    }
  }

  /** Moving the rest down over positions `s` to `t` cuts them out, */
  lemma CopyDownCuts(b: string, s: nat, t: nat, size: nat, count: nat)
    requires s <= t <= size <= |b| && size - t <= count <= |b| - t
    ensures Copied(b, s, t, count)[..size - (t - s)] == b[..size][..s] + b[..size][t..]
  {}

  /** and moving it up by one makes room for a character. */
  lemma CopyUpSplices(b: string, p: nat, size: nat, c: char)
    requires p <= size < |b|
    ensures Copied(b, p + 1, p, size - p)[p := c][..size + 1] == b[..size][..p] + [c] + b[..size][p..]
  {}

  class TextEditor {
    const buffer: array<char>
    var size: nat
    var pos: nat
    var row: nat
    var col: nat
    var mode: Mode
    var selecting: bool
    var selStart: nat
    var selEnd: nat
    var active: bool
    var modified: bool

    ghost predicate Valid() reads this { buffer.Length == MAX_BUFFER_SIZE && size < MAX_BUFFER_SIZE }

    ghost function View(): Ed
      requires Valid()
      reads this, buffer
    {
      Ed(buffer[..size], pos, row, col, mode, selecting, selStart, selEnd, active, modified)
    }

    /** An editor opened on a file's text. */
    constructor (text: string)
      requires |text| < MAX_BUFFER_SIZE
      ensures Valid() && fresh(buffer) && View() == Opened(text) && Good(View())
    {
      buffer := new char[MAX_BUFFER_SIZE](i requires 0 <= i < MAX_BUFFER_SIZE => if i < |text| then text[i] else '\0');
      size, pos, row, col, mode := |text|, 0, 0, 0, Normal;
      selecting, selStart, selEnd, active, modified := false, 0, 0, true, false;
      new;
      assert buffer[..size] == text;
    }

    /** How far the line goes on from `p`. */
    method LengthFrom(p: nat) returns (n: nat)
      requires Valid() && p <= size
      ensures p + n == EndFrom(buffer[..size], Rows(buffer[..size], p), p)
    {
      ghost var text := buffer[..size];
      n := 0;
      while p + n < size && buffer[p + n] != '\n'
        invariant p + n <= size && Rows(text, p + n) == Rows(text, p)
        invariant EndFrom(text, Rows(text, p), p) == EndFrom(text, Rows(text, p), p + n)
      {
        n := n + 1;
      }
    }

    method GetLineLength(row: nat) returns (n: nat)
      requires Valid()
      ensures n == LineLength(buffer[..size], row)
    {
      ghost var text := buffer[..size];
      var p, current := 0, 0;
      while p < size
        invariant 0 <= p <= size && current == Rows(text, p) && Start(text, row) == StartFrom(text, row, p)
      {
        if current == row {
          assert p == Start(text, row);
          LineFromStart(text, row);
          n := LengthFrom(p);
          return;
        }
        if buffer[p] == '\n' { current := current + 1; }
        p := p + 1;
      }
      assert Start(text, row) == |text|;
      return NOT_FOUND;
    }

    method UpdateCursorPos()
      requires Valid()
      modifies this`pos
      ensures pos == Locate(buffer[..size], row, col)
    {
      ghost var text := buffer[..size];
      var p, r, c := 0, 0, 0;
      while p < size
        invariant 0 <= p <= size && r == Rows(text, p) && c == Cols(text, p)
        invariant Locate(text, row, col) == LocateFrom(text, row, col, p)
      {
        if r == row && c == col {
          pos := p;
          return;
        }
        if buffer[p] == '\n' { r, c := r + 1, 0; } else { c := c + 1; }
        p := p + 1;
      }
      pos := p;
    }

    /** Cut positions `s` to `t` out of the text. */
    method Cut(s: nat, t: nat)
      requires Valid() && s <= t <= size
      modifies buffer, this`size
      ensures Valid() && size == old(size) - (t - s)
      ensures buffer[..size] == old(buffer[..size])[..s] + old(buffer[..size])[t..]
    {
      CopyDownCuts(buffer[..], s, t, size, size - t);
      MemMove(buffer, s, t, size - t);
      size := size - (t - s);
      assert buffer[..size] == buffer[..][..size];
    }

    /** Make room at position `p` and put a character there. */
    method Splice(p: nat, c: char)
      requires Valid() && p <= size < MAX_BUFFER_SIZE - 1
      modifies buffer, this`size
      ensures Valid() && size == old(size) + 1
      ensures buffer[..size] == old(buffer[..size])[..p] + [c] + old(buffer[..size])[p..]
    {
      CopyUpSplices(buffer[..], p, size, c);
      MemMove(buffer, p + 1, p, size - p);
      buffer[p] := c;
      size := size + 1;
      assert buffer[..size] == buffer[..][..size];
    }

    /** Put a character at the cursor. */
    method InsertAtCursor(c: char)
      requires Valid() && pos <= size < MAX_BUFFER_SIZE - 1
      modifies this, buffer
      ensures Valid() && View() == Inserted(old(View()), c)
      ensures buffer[..size] == old(buffer[..size])[..old(pos)] + [c] + old(buffer[..size])[old(pos)..]
    {
      Splice(pos, c);
      pos := pos + 1;
      if c == '\n' { row, col := Next(row), 0; } else { col := Next(col); }
      modified := true;
    }

    /** Cut out the character at `p`; the move takes one character past the text with it. */
    method CutOne(p: nat)
      requires Valid() && p < size
      modifies buffer, this`size
      ensures Valid() && size == old(size) - 1
      ensures buffer[..size] == old(buffer[..size])[..p] + old(buffer[..size])[p + 1..]
    {
      CopyDownCuts(buffer[..], p, p + 1, size, size - p);
      MemMove(buffer, p, p + 1, size - p);
      size := size - 1;
      assert buffer[..size] == buffer[..][..size];
    }

    method DeleteChar()
      requires Valid()
      modifies this`size, this`modified, buffer
      ensures Valid()
      ensures View() == if pos >= old(size) then old(View()) else
        old(View()).(text := old(View()).text[..pos] + old(View()).text[pos + 1..], modified := true)
    {
      if pos < size {
        CutOne(pos);
        modified := true;
      }
    }

    /** The start of the line that position `p` is on, found from the start of the text. */
    method LineStartOf(p: nat) returns (start: nat)
      requires Valid() && p <= size
      ensures start == p - Cols(buffer[..size], p)
    {
      ghost var text := buffer[..size];
      var i := 0;
      start := 0;
      while i < p
        invariant 0 <= i <= p && start == i - Cols(text, i)
      {
        if buffer[i] == '\n' { start := i + 1; }
        i := i + 1;
      }
    }

    method Backspace()
      requires Valid() && 0 < pos <= size
      modifies this, buffer
      ensures Valid() && View() == Erased(old(View()))
    {
      var newline := buffer[pos - 1] == '\n';
      Cut(pos - 1, pos);
      pos := pos - 1;
      if newline {
        row := Prev(row);
        var start := LineStartOf(pos);
        col := pos - start;
      } else if col > 0 {
        col := col - 1;
      }
      modified := true;
    }

    method MoveToRow(r: nat)
      requires Valid()
      modifies this`row, this`col, this`pos
      ensures View() == ToRow(old(View()), r)
    {
      ghost var text := buffer[..size];
      var n := GetLineLength(r);
      if n != NOT_FOUND {
        row := r;
        col := if col > n then n else col;
        assert buffer[..size] == text;
        UpdateCursorPos();
        assert buffer[..size] == text;
      }
    }

    method MoveDown()
      requires Valid()
      modifies this`row, this`col, this`pos
      ensures View() == Down(old(View()))
    {
      MoveToRow(Next(row));
    }

    method MoveUp()
      requires Valid()
      modifies this`row, this`col, this`pos
      ensures View() == Up(old(View()))
    {
      if row > 0 { MoveToRow(row - 1); }
    }

    /** Take trailing newlines off the text. */
    method TrimEnd()
      requires Valid()
      modifies this`size
      ensures Valid() && buffer[..size] == Trimmed(old(buffer[..size]))
    {
      ghost var text := buffer[..size];
      assert text[..size] == text;
      while size > 0 && buffer[size - 1] == '\n'
        invariant size <= |text| && Trimmed(text[..size]) == Trimmed(text)
      {
        assert text[..size][..size - 1] == text[..size - 1];
        size := size - 1;
      }
      assert buffer[..size] == text[..size];
    }

    /** `accepted` is whether the file system stores the trimmed text. */
    method Save(accepted: bool) returns (ok: bool)
      requires Valid()
      modifies this`size, this`pos, this`modified
      ensures Valid()
      ensures ok <==> active && accepted
      ensures View() == if active then Saved(old(View()), accepted) else old(View())
    {
      if !active { return false; }
      TrimEnd();
      ok := accepted;
      if ok {
        modified := false;
        if pos > size {
          pos := size;
          UpdateCursorPos();
        }
      }
    }

    method Close()
      requires Valid()
      modifies this
      ensures Valid() && View() == if old(active) then Closed(old(View())) else old(View())
    {
      if !active { return; }
      active, size, pos, row, col, mode, modified := false, 0, 0, 0, 0, Normal, false;
    }

    /** Step back from `p` to the start of its line. */
    method BackToLineStart(p: nat) returns (s: nat)
      requires Valid() && p <= size
      ensures s == p - Cols(buffer[..size], p)
    {
      ghost var text := buffer[..size];
      s := p;
      while s > 0 && buffer[s - 1] != '\n'
        invariant s <= p && s - Cols(text, s) == p - Cols(text, p)
      {
        s := s - 1;
      }
    }

    /** Where the selection starts: the start of row `first` or, past the text, of the last line. */
    method SelectionStart(first: nat) returns (s: nat)
      requires Valid()
      ensures var p := Start(buffer[..size], first); p <= size && s == p - Cols(buffer[..size], p)
    {
      ghost var text := buffer[..size];
      s := 0;
      var current := 0;
      while current < first && s < size
        invariant 0 <= s <= size && current == Rows(text, s) && current <= first
        invariant Start(text, first) == StartFrom(text, first, s)
      {
        if buffer[s] == '\n' { current := current + 1; }
        s := s + 1;
      }
      assert s == Start(text, first);
      if !(s > 0 && buffer[s - 1] == '\n') { s := BackToLineStart(s); }
    }

    /** Where it ends, scanning from `s` and counting rows from `first` to `last`. */
    method SelectionEnd(s: nat, first: nat, last: nat) returns (t: nat)
      requires Valid() && s <= size && first <= last
      ensures s <= t <= size && t == EndFrom(buffer[..size], Rows(buffer[..size], s) + (last - first), s)
    {
      ghost var text := buffer[..size];
      ghost var goal := Rows(text, s) + (last - first);
      t := s;
      var current := first;
      while current <= last && t < size
        invariant s <= t <= size && current - first == Rows(text, t) - Rows(text, s) && current <= last
        invariant EndFrom(text, goal, s) == EndFrom(text, goal, t)
      {
        if buffer[t] == '\n' {
          current := current + 1;
          if current > last { break; }
        }
        t := t + 1;
      }
    }

    /** Cut a range that starts a line and leave the cursor where it was. */
    method CutLines(s: nat, t: nat, first: nat)
      requires Valid() && s < t <= size && Cols(buffer[..size], s) == 0
      modifies this`size, this`pos, this`row, this`col, this`modified, buffer
      ensures Valid()
      ensures View() ==
              old(View()).(text := old(View()).text[..s] + old(View()).text[t..],
                           pos := s, row := first, col := 0, modified := true)
    {
      ghost var text := buffer[..size];
      Cut(s, t);
      pos, row := s, first;
      SamePrefix(text, buffer[..size], s);
      var start := BackToLineStart(s);
      col := pos - start;
      modified := true;
    }

    /** The range that the selection covers, which starts a line. */
    method Selection() returns (s: nat, t: nat)
      requires Valid()
      ensures s == CutStart(View()) && t == CutEnd(View()) && s <= t <= size && Cols(buffer[..size], s) == 0
    {
      var first := if selStart < selEnd then selStart else selEnd;
      var last := if selStart < selEnd then selEnd else selStart;
      s := SelectionStart(first);
      t := SelectionEnd(s, first, last);
      CutIs(View(), buffer[..size], first, last, s, t);
    }

    method DeleteLines()
      requires Valid()
      modifies this`size, this`pos, this`row, this`col, this`modified, buffer
      ensures Valid() && View() == LinesDeleted(old(View()))
    {
      var s, t := Selection();
      if t > s { CutLines(s, t, if selStart < selEnd then selStart else selEnd); }
    }

    /** Move and let the selection end at the new row. */
    method ExtendSelection(down: bool)
      requires Valid()
      modifies this`row, this`col, this`pos, this`selEnd
      ensures View() == Reselected(old(View()), if down then Down(old(View())) else Up(old(View())))
    {
      var was := row;
      if down { MoveDown(); } else { MoveUp(); }
      if row != was { selEnd := row; }
    }

    /** One keypress; `accepted` is the file system's answer to a save. */
    method ProcessKeypress(c: char, accepted: bool)
      requires Valid() && pos <= size
      modifies this, buffer
      ensures Valid() && View() == Key(old(View()), c, accepted)
      ensures Obeys(old(View()), c, View())
      ensures old(Good(View())) && old(active) && c != ESC ==> Moves(old(View()), c, View())
    {
      KeyObeys(View(), c, accepted);
      if Good(View()) && active && c != ESC { KeyMoves(View(), c, accepted); }
      HandleKey(c, accepted);
    }

    method HandleKey(c: char, accepted: bool)
      requires Valid() && pos <= size
      modifies this, buffer
      ensures Valid() && View() == Key(old(View()), c, accepted)
    {
      if !active { return; }
      if c == ESC {
        mode, selecting := Normal, false;
        return;
      }
      match mode
      case Normal => ProcessNormal(c, accepted);
      case Insert => ProcessInsert(c);
      case Visual => ProcessVisual(c);
    }

    method ProcessNormal(c: char, accepted: bool)
      requires Valid() && pos <= size && active
      modifies this, buffer
      ensures Valid() && View() == NormalKey(old(View()), c, accepted)
    {
      if c == 'i' || c == 'a' {
        mode, selecting := Insert, false;
      } else if c == 's' {
        if pos < size { DeleteChar(); }
        mode, selecting := Insert, false;
      } else if c == 'J' || c == 'K' {
        mode, selecting, selStart, selEnd := Visual, true, row, row;
      } else if c == CTRL_S {
        var ok := Save(accepted);
      } else if c == CTRL_Q {
        Close();
      } else {
        MoveKey(c);
      }
    }

    /** The keys that move the cursor. */
    method MoveKey(c: char)
      requires Valid() && pos <= size && c !in ['i', 'a', 's', 'J', 'K', CTRL_S, CTRL_Q]
      modifies this
      ensures Valid() && View() == NormalKey(old(View()), c, false)
    {
      if c == 'h' && col > 0 {
        col, pos := col - 1, Prev(pos);
        return;
      }
      if c == 'l' {
        var n := GetLineLength(row);
        if col < n { col, pos := col + 1, pos + 1; }
        return;
      }
      if c == 'k' { MoveUp(); }
      if c == 'j' { MoveDown(); }
    }

    method ProcessInsert(c: char)
      requires Valid() && pos <= size
      modifies this, buffer
      ensures Valid() && View() == InsertKey(old(View()), c)
    {
      if c == CTRL_S || c == CTRL_Q { return; }
      if c == BACKSPACE && pos > 0 {
        Backspace();
        return;
      }
      if ' ' <= c <= '~' && size < MAX_BUFFER_SIZE - 1 {
        InsertAtCursor(c);
        return;
      }
      if (c == '\r' || c == '\n') && size < MAX_BUFFER_SIZE - 1 { InsertAtCursor('\n'); }
    }

    method ProcessVisual(c: char)
      requires Valid() && mode == Visual
      modifies this, buffer
      ensures Valid() && View() == VisualKey(old(View()), c)
    {
      if c == 'a' {
        mode, selecting := Insert, false;
      } else if c == 's' {
        DeleteLines();
        mode, selecting := Insert, false;
      } else if c == 'J' || c == 'K' {
        ExtendSelection(c == 'J');
      }
    }
  }
}
