/** Notepad's line buffer as a flat text with one cursor. */
module Notepad {
  import opened Texts

  /** The lines of a text, joined by line feeds. */
  function Flat(lines: seq<string>): string {
    if |lines| == 0 then ""
    else if |lines| == 1 then lines[0]
    else Flat(lines[..|lines| - 1]) + "\n" + lines[|lines| - 1]
  }

  /** Where a row begins in the flat text. */
  function RowStart(lines: seq<string>, row: nat): nat
    requires row < |lines|
  {
    if row == 0 then 0 else |Flat(lines[..row])| + 1
  }

  function Index(lines: seq<string>, row: nat, col: nat): nat
    requires row < |lines|
  {
    RowStart(lines, row) + col
  }

  lemma {:induction false} FlatJoin(a: seq<string>, b: seq<string>)
    requires a != [] && b != []
    ensures Flat(a + b) == Flat(a) + "\n" + Flat(b)
    decreases |b|
  {
    if |b| == 1 {
      assert (a + b)[..|a|] == a;
    } else {
      var init := b[..|b| - 1];
      FlatJoin(a, init);
      assert (a + b)[..|a + b| - 1] == a + init;
    }
  }

  /** The text in front of a row, with the line feed that ends it. */
  function Front(lines: seq<string>, row: nat): string
    requires row < |lines|
  {
    if row == 0 then "" else Flat(lines[..row]) + "\n"
  }

  function Behind(lines: seq<string>, row: nat): string
    requires row < |lines|
  {
    if row == |lines| - 1 then "" else "\n" + Flat(lines[row + 1..])
  }

  lemma FlatOne(line: string)
    ensures Flat([line]) == line
  {
  }

  lemma FromRow(lines: seq<string>, row: nat)
    requires row < |lines|
    ensures Flat(lines[row..]) == lines[row] + Behind(lines, row)
  {
    hide Flat;
    var b := lines[row + 1..];
    FlatOne(lines[row]);
    if b == [] {
      assert lines[row..] == [lines[row]];
    } else {
      FlatJoin([lines[row]], b);
      assert lines[row..] == [lines[row]] + b;
      Regroup(lines[row], "\n", Flat(b));
    }
  }

  /** A text is what is in front of a row, the row, and what is behind it. */
  lemma FlatAt(lines: seq<string>, row: nat)
    requires row < |lines|
    ensures Flat(lines) == Front(lines, row) + (lines[row] + Behind(lines, row))
    ensures |Front(lines, row)| == RowStart(lines, row)
  {
    hide Flat, Behind;
    FromRow(lines, row);
    if row == 0 {
      assert lines[0..] == lines;
    } else {
      FlatJoin(lines[..row], lines[row..]);
      assert lines == lines[..row] + lines[row..];
    }
  }

  datatype Buffer = Buffer(lines: seq<string>, row: nat, col: nat)

  /** The cursor is on a line, at one of its characters or behind the last. */
  predicate Ok(b: Buffer) {
    b.row < |b.lines| && b.col <= |b.lines[b.row]|
  }

  function Cursor(b: Buffer): nat
    requires Ok(b)
  {
    Index(b.lines, b.row, b.col)
  }

  function Inserted(b: Buffer, c: char): (r: Buffer)
    requires Ok(b)
    ensures Ok(r)
  {
    var line := b.lines[b.row];
    Buffer(b.lines[b.row := line[..b.col] + [c] + line[b.col..]], b.row, b.col + 1)
  }

  /** A row behind the last one stands for the last. */
  function Clamped(b: Buffer): Buffer
    requires b.lines != []
  {
    if b.row >= |b.lines| then b.(row := |b.lines| - 1) else b
  }

  function Broken(b: Buffer): (r: Buffer)
    requires Ok(b)
    ensures Ok(r)
  {
    var line := b.lines[b.row];
    Buffer(b.lines[..b.row] + [line[..b.col], line[b.col..]] + b.lines[b.row + 1..], b.row + 1, 0)
  }

  function Erased(b: Buffer): (r: Buffer)
    requires Ok(b)
    ensures Ok(r)
  {
    if b.col == 0 && b.row > 0 then
      Buffer(b.lines[..b.row - 1] + [b.lines[b.row - 1] + b.lines[b.row]] + b.lines[b.row + 1..], b.row - 1, |b.lines[b.row - 1]|)
    else if b.col > 0 then
      var line := b.lines[b.row];
      Buffer(b.lines[b.row := line[..b.col - 1] + line[b.col..]], b.row, b.col - 1)
    else b
  }

  /** The flat text on both sides of the cursor. */
  lemma AroundCursor(b: Buffer)
    requires Ok(b)
    ensures
      var flat, line := Flat(b.lines), b.lines[b.row];
      && Cursor(b) <= |flat|
      && flat[..Cursor(b)] == Front(b.lines, b.row) + line[..b.col]
      && flat[Cursor(b)..] == line[b.col..] + Behind(b.lines, b.row)
  {
    hide Flat;
    FlatAt(b.lines, b.row);
    var f, line, k := Front(b.lines, b.row), b.lines[b.row], Behind(b.lines, b.row);
    assert line == line[..b.col] + line[b.col..];
    assert f + (line + k) == (f + line[..b.col]) + (line[b.col..] + k);
  }

  /** Lines that differ in one row only have the same text in front of and behind it. */
  lemma SameAround(lines: seq<string>, row: nat, line: string)
    requires row < |lines|
    ensures Flat(lines[row := line]) == Front(lines, row) + (line + Behind(lines, row))
    ensures RowStart(lines[row := line], row) == RowStart(lines, row)
  {
    hide Flat;
    var other := lines[row := line];
    FlatAt(other, row);
    assert other[..row] == lines[..row] && other[row + 1..] == lines[row + 1..];
  }

  /** insert_char puts the character into the flat text at the cursor, which moves behind it. */
  lemma InsertIsFlat(b: Buffer, c: char)
    requires Ok(b)
    ensures
      var r, i := Inserted(b, c), Cursor(b);
      i <= |Flat(b.lines)| && Flat(r.lines) == Flat(b.lines)[..i] + [c] + Flat(b.lines)[i..] && Cursor(r) == i + 1
  {
    hide Flat, Front, Behind, RowStart;
    AroundCursor(b);
    var line := b.lines[b.row];
    SameAround(b.lines, b.row, line[..b.col] + [c] + line[b.col..]);
  }

  lemma EraseInLine(b: Buffer)
    requires Ok(b) && b.col > 0
    ensures
      var r, i := Erased(b), Cursor(b);
      && 0 < i <= |Flat(b.lines)| && Flat(r.lines) == Flat(b.lines)[..i - 1] + Flat(b.lines)[i..] && Cursor(r) == i - 1
  {
    hide Flat, Front, Behind, RowStart;
    AroundCursor(b);
    var line, i := b.lines[b.row], Cursor(b);
    SameAround(b.lines, b.row, line[..b.col - 1] + line[b.col..]);
    assert Flat(b.lines)[..i - 1] == Flat(b.lines)[..i][..i - 1] == Front(b.lines, b.row) + line[..b.col - 1];
  }

  lemma JoinText(f: string, l: string, m: string, k: string)
    ensures f + ((l + "\n" + m) + k) == f + (l + ("\n" + (m + k)))
  {
    Regroup(l + "\n", m, k);
    Regroup(l, "\n", m + k);
  }

  /** Two rows and the line feed between them, seen as one row. */
  lemma RowsJoin(lines: seq<string>, row: nat)
    requires row + 1 < |lines|
    ensures
      var one := lines[..row] + [lines[row] + "\n" + lines[row + 1]] + lines[row + 2..];
      && Flat(one) == Flat(lines) && RowStart(one, row) == RowStart(lines, row)
      && RowStart(lines, row + 1) == RowStart(lines, row) + |lines[row]| + 1
  {
    hide Flat;
    var one := lines[..row] + [lines[row] + "\n" + lines[row + 1]] + lines[row + 2..];
    assert one[..row] == lines[..row] && one[row + 1..] == lines[row + 2..];
    FlatAt(one, row);
    FlatAt(lines, row);
    FromRow(lines, row + 1);
    JoinText(Front(lines, row), lines[row], lines[row + 1], Behind(lines, row + 1));
    NextRow(lines, row);
  }

  lemma NextRow(lines: seq<string>, row: nat)
    requires row + 1 < |lines|
    ensures RowStart(lines, row + 1) == RowStart(lines, row) + |lines[row]| + 1
  {
    hide Flat;
    var a := lines[..row + 1];
    FlatAt(a, row);
    assert a[..row] == lines[..row];
  }

  /** newline puts a line feed into the flat text at the cursor. */
  lemma BreakIsFlat(b: Buffer)
    requires Ok(b)
    ensures
      var r, i := Broken(b), Cursor(b);
      i <= |Flat(b.lines)| && Flat(r.lines) == Flat(b.lines)[..i] + "\n" + Flat(b.lines)[i..] && Cursor(r) == i + 1
  {
    hide Flat, Front, Behind, RowStart;
    var line, r := b.lines[b.row], Broken(b);
    AroundCursor(b);
    RowsJoin(r.lines, b.row);
    var one := r.lines[..b.row] + [r.lines[b.row] + "\n" + r.lines[b.row + 1]] + r.lines[b.row + 2..];
    assert one == b.lines[b.row := line[..b.col] + "\n" + line[b.col..]];
    SameAround(b.lines, b.row, line[..b.col] + "\n" + line[b.col..]);
  }

  lemma EraseBreak(b: Buffer)
    requires Ok(b) && b.col == 0 && b.row > 0
    ensures
      var r, i := Erased(b), Cursor(b);
      && 0 < i <= |Flat(b.lines)| && Flat(r.lines) == Flat(b.lines)[..i - 1] + Flat(b.lines)[i..] && Cursor(r) == i - 1
  {
    hide Flat, Front, Behind, RowStart;
    var r := Erased(b);
    JoinedBreaks(b);
    BreakIsFlat(r);
    var i := Cursor(r);
    assert Flat(b.lines)[..i] == Flat(r.lines)[..i] && Flat(b.lines)[i + 1..] == Flat(r.lines)[i..];
  }

  /** Joining two lines and breaking them again changes nothing. */
  lemma JoinedBreaks(b: Buffer)
    requires Ok(b) && b.col == 0 && b.row > 0
    ensures Broken(Erased(b)) == b
  {
    var r := Erased(b);
    var line := r.lines[r.row];
    assert line[..r.col] == b.lines[b.row - 1] && line[r.col..] == b.lines[b.row];
    assert r.lines[..r.row] == b.lines[..b.row - 1] && r.lines[r.row + 1..] == b.lines[b.row + 1..];
    assert Broken(r).lines == b.lines;
  }

  /** backspace takes the character in front of the cursor out of the flat text; at the very start it does nothing. */
  lemma EraseIsFlat(b: Buffer)
    requires Ok(b)
    ensures
      var r, i := Erased(b), Cursor(b);
      && i <= |Flat(b.lines)|
      && if i == 0 then r == b else Flat(r.lines) == Flat(b.lines)[..i - 1] + Flat(b.lines)[i..] && Cursor(r) == i - 1
  {
    hide Flat;
    AroundCursor(b);
    if b.col > 0 {
      EraseInLine(b);
    } else if b.row > 0 {
      EraseBreak(b);
    }
  }

  /** Backspace undoes a character or a line break just put in. */
  lemma EraseUndoes(b: Buffer, c: char)
    requires Ok(b)
    ensures Erased(Inserted(b, c)) == b && Erased(Broken(b)) == b
  {
    var line, r := b.lines[b.row], Broken(b);
    var typed := Inserted(b, c).lines[b.row];
    assert typed[..b.col] + typed[b.col + 1..] == line;
    assert Inserted(b, c).lines[b.row := line] == b.lines;
    assert r.lines[b.row] + r.lines[b.row + 1] == line;
    assert r.lines[..b.row] == b.lines[..b.row] && r.lines[b.row + 2..] == b.lines[b.row + 1..];
    assert Erased(r).lines == b.lines;
  }

  // Loading and saving.

  const LOAD_LIMIT := 32768

  /** The lines of a text as they are read: a line feed starts a new one; carriage returns and NULs leave no trace. */
  function Loaded(text: string): (r: seq<string>)
    ensures r != []
  {
    if text == "" then [""]
    else
      var before, c := Loaded(text[..|text| - 1]), text[|text| - 1];
      if c == '\n' then before + [""]
      else if c == '\r' || c == '\0' then before
      else before[|before| - 1 := before[|before| - 1] + [c]]
  }

  function Kept(text: string): string {
    if text == "" then ""
    else
      var before, c := Kept(text[..|text| - 1]), text[|text| - 1];
      if c == '\r' || c == '\0' then before else before + [c]
  }

  lemma FlatLast(lines: seq<string>, c: char)
    requires lines != []
    ensures Flat(lines + [""]) == Flat(lines) + "\n"
    ensures Flat(lines[|lines| - 1 := lines[|lines| - 1] + [c]]) == Flat(lines) + [c]
  {
    FlatJoin(lines, [""]);
    var last := |lines| - 1;
    var more := lines[last := lines[last] + [c]];
    if last > 0 {
      assert more[..last] == lines[..last];
      assert Flat(lines[..last]) + "\n" + (lines[last] + [c]) == Flat(lines[..last]) + "\n" + lines[last] + [c];
    }
  }

  /** Saving what has just been loaded gives the text back without its carriage returns and NULs. */
  lemma {:induction false} SaveLoad(text: string)
    ensures Flat(Loaded(text)) == Kept(text)
  {
    hide Flat;
    if text == "" {
      EmptyLine();
    } else {
      SaveLoad(text[..|text| - 1]);
      FlatLast(Loaded(text[..|text| - 1]), text[|text| - 1]);
    }
  }

  lemma EmptyLine()
    ensures Flat([""]) == ""
  {
  }

  /** Loading a saved buffer gives its lines back exactly when they hold no line feeds, carriage returns or NULs. */
  predicate Clean(lines: seq<string>) {
    forall i | 0 <= i < |lines| :: '\n' !in lines[i] && '\r' !in lines[i] && '\0' !in lines[i]
  }

  lemma {:induction false} LoadedClean(text: string)
    ensures Clean(Loaded(text))
  {
    if text != "" {
      LoadedClean(text[..|text| - 1]);
    }
  }

  lemma {:induction false} LoadAppends(text: string, line: string)
    requires '\n' !in line && '\r' !in line && '\0' !in line
    ensures
      var before := Loaded(text);
      Loaded(text + line) == before[|before| - 1 := before[|before| - 1] + line]
    decreases |line|
  {
    var before := Loaded(text);
    if line == "" {
      assert text + line == text && before[|before| - 1] + line == before[|before| - 1];
    } else {
      var init, c := line[..|line| - 1], line[|line| - 1];
      LoadAppends(text, init);
      assert (text + line)[..|text + line| - 1] == text + init;
      assert before[|before| - 1] + init + [c] == before[|before| - 1] + line;
    }
  }

  lemma {:induction false} LoadSave(lines: seq<string>)
    requires lines != []
    ensures Loaded(Flat(lines)) == lines <==> Clean(lines)
  {
    if Clean(lines) {
      LoadSaveClean(lines);
    } else {
      LoadedClean(Flat(lines));
    }
  }

  lemma {:induction false} LoadSaveClean(lines: seq<string>)
    requires lines != [] && Clean(lines)
    ensures Loaded(Flat(lines)) == lines
    decreases |lines|
  {
    hide Flat, Loaded;
    var last := |lines| - 1;
    LoadNothing();
    if last == 0 {
      FlatOne(lines[0]);
      assert lines == [lines[0]] && "" + lines[0] == lines[0];
      LoadAppends("", lines[0]);
    } else {
      var init := lines[..last];
      LoadSaveClean(init);
      LoadBreak(Flat(init));
      LoadAppends(Flat(init) + "\n", lines[last]);
      FlatSnoc(lines);
      assert "" + lines[last] == lines[last];
      assert init + [lines[last]] == lines;
    }
  }

  lemma LoadNothing()
    ensures Loaded("") == [""]
  {
  }

  lemma FlatSnoc(lines: seq<string>)
    requires |lines| > 1
    ensures Flat(lines) == (Flat(lines[..|lines| - 1]) + "\n") + lines[|lines| - 1]
  {
  }

  lemma LoadBreak(text: string)
    ensures Loaded(text + "\n") == Loaded(text) + [""]
  {
    assert (text + "\n")[..|text|] == text;
  }

  // The buffer itself.

  class TextBuffer {
    /** The lines in use are the first lineCount; the array's length is the capacity. */
    var lines: array<string>
    var lineCount: nat
    var cursorRow: nat
    var cursorCol: nat

    predicate Filled()
      reads this
    {
      lineCount <= lines.Length
    }

    function Snapshot(): Buffer
      requires Filled()
      reads this, lines
    {
      Buffer(lines[..lineCount], cursorRow, cursorCol)
    }

    predicate Valid()
      reads this, lines
    {
      Filled() && Ok(Snapshot())
    }

    constructor ()
      ensures Valid() && Snapshot() == Buffer([""], 0, 0) && fresh(lines)
    {
      lines := new string[0];
      lineCount, cursorRow, cursorCol := 0, 0, 0;
      new;
      AddLine("");
    }

    /** Makes room for one more line. */
    method Reserve()
      requires Filled()
      modifies `lines
      ensures lineCount < lines.Length && lines[..lineCount] == old(lines[..lineCount])
      ensures lines == old(lines) || fresh(lines)
    {
      if lineCount >= lines.Length {
        var more := new string[if lines.Length == 0 then 16 else 2 * lines.Length];
        for i := 0 to lineCount
          invariant more[..i] == lines[..i]
          modifies more
        {
          more[i] := lines[i];
        }
        lines := more;
      }
    }

    method AddLine(text: string)
      requires Filled()
      modifies `lines, `lineCount, lines
      ensures Filled() && lines[..lineCount] == old(lines[..lineCount]) + [text]
      ensures lines == old(lines) || fresh(lines)
    {
      Reserve();
      lines[lineCount] := text;
      lineCount := lineCount + 1;
    }

    method InsertLineAt(at: nat, text: string)
      requires Filled() && at <= lineCount
      modifies `lines, `lineCount, lines
      ensures Filled() && lines[..lineCount] == old(lines[..at]) + [text] + old(lines[at..lineCount])
      ensures lines == old(lines) || fresh(lines)
    {
      Reserve();
      ghost var before := lines[..lineCount];
      assert before[..at] == old(lines[..at]) && before[at..] == old(lines[at..lineCount]);
      var i := lineCount;
      while i > at
        invariant at <= i <= lineCount
        invariant forall j | 0 <= j < i :: lines[j] == before[j]
        invariant forall j | i < j <= lineCount :: lines[j] == before[j - 1]
        modifies lines
      {
        lines[i] := lines[i - 1];
        i := i - 1;
      }
      lines[at] := text;
      lineCount := lineCount + 1;
      ShiftedUp(lines[..lineCount], before, at, text);
    }

    method RemoveLineAt(at: nat)
      requires Filled() && at < lineCount
      modifies `lineCount, lines
      ensures Filled() && lines[..lineCount] == old(lines[..at]) + old(lines[at + 1..lineCount])
    {
      ghost var before := lines[..lineCount];
      ghost var after := before[..at] + before[at + 1..];
      assert before[..at] == old(lines[..at]) && before[at + 1..] == old(lines[at + 1..lineCount]);
      for i := at to lineCount - 1
        invariant forall j | 0 <= j < i :: lines[j] == after[j]
        invariant forall j | i <= j < lineCount :: lines[j] == before[j]
        modifies lines
      {
        assert after[i] == before[i + 1];
        lines[i] := lines[i + 1];
      }
      lineCount := lineCount - 1;
      assert lines[..lineCount] == after;
    }

    method InsertChar(c: char)
      requires Filled() && lineCount > 0 && Ok(Clamped(Snapshot())) && c != '\0'
      modifies this, lines
      ensures Valid() && Snapshot() == Inserted(Clamped(old(Snapshot())), c)
    {
      if cursorRow >= lineCount {
        cursorRow := lineCount - 1;
      }
      var line := lines[cursorRow];
      lines[cursorRow] := line[..cursorCol] + [c] + line[cursorCol..];
      cursorCol := cursorCol + 1;
    }

    method Backspace()
      requires Valid()
      modifies this, lines
      ensures Valid() && Snapshot() == Erased(old(Snapshot()))
    {
      if cursorCol == 0 && cursorRow > 0 {
        ghost var b := Snapshot();
        var prevLen := |lines[cursorRow - 1]|;
        lines[cursorRow - 1] := lines[cursorRow - 1] + lines[cursorRow];
        RemoveLineAt(cursorRow);
        cursorRow := cursorRow - 1;
        cursorCol := prevLen;
        assert lines[..lineCount] == b.lines[..b.row - 1] + [b.lines[b.row - 1] + b.lines[b.row]] + b.lines[b.row + 1..];
      } else if cursorCol > 0 {
        var line := lines[cursorRow];
        lines[cursorRow] := line[..cursorCol - 1] + line[cursorCol..];
        cursorCol := cursorCol - 1;
      }
    }

    method Newline()
      requires Valid()
      modifies this, lines
      ensures Valid() && Snapshot() == Broken(old(Snapshot()))
      ensures lines == old(lines) || fresh(lines)
    {
      ghost var b := Snapshot();
      var line := lines[cursorRow];
      lines[cursorRow] := line[..cursorCol];
      InsertLineAt(cursorRow + 1, line[cursorCol..]);
      assert lines[..lineCount] == b.lines[..b.row] + [line[..b.col], line[b.col..]] + b.lines[b.row + 1..];
      cursorRow := cursorRow + 1;
      cursorCol := 0;
    }

    /** Loads the first 32768 bytes of a file. */
    method Load(file: string)
      requires Filled()
      modifies this
      ensures Valid() && fresh(lines)
      ensures Snapshot() == Buffer(Loaded(if |file| <= LOAD_LIMIT then file else file[..LOAD_LIMIT]), 0, 0)
    {
      lines := new string[0];
      lineCount, cursorRow, cursorCol := 0, 0, 0;
      AddLine("");
      var text := if |file| <= LOAD_LIMIT then file else file[..LOAD_LIMIT];
      for i := 0 to |text|
        invariant fresh(lines) && Filled() && lines[..lineCount] == Loaded(text[..i]) && cursorRow == 0 && cursorCol == 0
      {
        assert text[..i + 1][..i] == text[..i];
        if text[i] == '\n' {
          AddLine("");
        } else if text[i] != '\r' && text[i] != '\0' {
          assert lines[..lineCount][lineCount - 1] == lines[lineCount - 1];
          lines[lineCount - 1] := lines[lineCount - 1] + [text[i]];
        }
      }
      assert text[..|text|] == text;
    }

    /** The bytes written to a file: the lines with line feeds between them. */
    method Save() returns (file: string)
      requires Valid()
      ensures file == Flat(Snapshot().lines)
    {
      file := "";
      for i := 0 to lineCount
        invariant file == if i < lineCount then Front(lines[..lineCount], i) else Flat(lines[..lineCount])
      {
        file := file + lines[i];
        if i < lineCount - 1 {
          file := file + "\n";
        }
        SaveStep(lines[..lineCount], i);
      }
    }
  }

  lemma ShiftedUp(after: seq<string>, before: seq<string>, at: nat, text: string)
    requires at <= |before| && |after| == |before| + 1 && after[at] == text
    requires forall j | 0 <= j < at :: after[j] == before[j]
    requires forall j | at < j < |after| :: after[j] == before[j - 1]
    ensures after == before[..at] + [text] + before[at..]
  {
  }

  lemma SaveStep(lines: seq<string>, i: nat)
    requires i < |lines|
    ensures i + 1 < |lines| ==> Front(lines, i) + lines[i] + "\n" == Front(lines, i + 1)
    ensures i + 1 == |lines| ==> Front(lines, i) + lines[i] == Flat(lines)
  {
    var a := lines[..i + 1];
    FlatAt(a, i);
    assert a[..i] == lines[..i];
    assert i + 1 == |lines| ==> a == lines;
  }
}
