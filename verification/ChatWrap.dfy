/** Word wrap of chat messages: what the rows are, and the loops that produce them. */
module ChatWrap {
  import opened ChatText

  const LINE_MAX := 256
  const PREFIX_MAX := 80

  /** The line being filled: its bytes, the columns counted for it, and whether it holds a word. */
  datatype Line = Line(bytes: Text, cols: nat, hasText: bool)

  /** A line the buffer holds; before its first word there is at most a prefix in it. */
  predicate Open(line: Line) {
    |line.bytes| < LINE_MAX && (!line.hasText ==> |line.bytes| < PREFIX_MAX)
  }

  /** chat_line_init */
  function Started(prefix: Text, width: nat): (line: Line)
    ensures line.bytes <= prefix && line.cols <= width && !line.hasText && |line.bytes| < LINE_MAX
  {
    var taken := Take(prefix, width, LINE_MAX - 1);
    Line(prefix[..taken.0], taken.1, false)
  }

  /** chat_line_append: text that does not fit the buffer is dropped. */
  function Appended(line: Line, text: Text, cols: nat): (r: Line)
    ensures |line.bytes| < LINE_MAX ==> |r.bytes| < LINE_MAX
  {
    if text == [] || |line.bytes| + |text| >= LINE_MAX then line
    else Line(line.bytes + text, line.cols + cols, line.hasText)
  }

  function RoomIn(line: Line, width: nat): nat {
    if line.cols < width then width - line.cols else 0
  }

  /** A word behind what is on the line already. */
  function WithWord(line: Line, word: Text, cols: nat): Line {
    Appended(if line.hasText then Appended(line, [SPACE], 1) else line, word, cols).(hasText := true)
  }

  predicate WordFits(line: Line, cols: nat, width: nat) {
    cols + (if line.hasText then 1 else 0) <= RoomIn(line, width)
  }

  /** The rows completed while a word is placed, and the line it ends on. */
  datatype Placed = Placed(rows: seq<Text>, line: Line)

  lemma CutProgresses(line: Line, word: Text, room: nat)
    requires Open(line) && !line.hasText && word != [] && room > 0
    ensures var taken := Take(word, room, LINE_MAX - |line.bytes| - 1); taken.0 > 0 && taken.1 > 0
  {
  }

  /** How much of a word goes on a line without text that has room, but not enough. */
  function Cut(line: Line, word: Text, width: nat): (nat, nat)
    requires Open(line)
  {
    Take(word, RoomIn(line, width), LINE_MAX - |line.bytes| - 1)
  }

  function Place(line: Line, word: Text, cols: nat, width: nat): (p: Placed)
    requires width > 0 && Open(line) && cols == Cols(word)
    ensures Open(p.line) && (cols > 0 ==> p.line.hasText)
    decreases cols, line.hasText || RoomIn(line, width) == 0
  {
    if cols == 0 then Placed([], line)
    else if WordFits(line, cols, width) then Placed([], WithWord(line, word, cols))
    else if !line.hasText && RoomIn(line, width) > 0 then
      var taken := Cut(line, word, width);
      CutProgresses(line, word, RoomIn(line, width));
      TakeCols(word, RoomIn(line, width), LINE_MAX - |line.bytes| - 1);
      var rest := Place(Started([], width), word[taken.0..], cols - taken.1, width);
      Placed([line.bytes + word[..taken.0]] + rest.rows, rest.line)
    else
      var rest := Place(Started([], width), word, cols, width);
      Placed([line.bytes] + rest.rows, rest.line)
  }

  function AfterBreak(text: Text): Text
    requires text != [] && (text[0] == LF || text[0] == CR)
  {
    if text[0] == CR && |text| > 1 && text[1] == LF then text[2..] else text[1..]
  }

  /** All rows from here on. */
  function WrapFrom(text: Text, line: Line, width: nat): (rows: seq<Text>)
    requires width > 0 && Open(line)
    ensures rows != []
    decreases |text|
  {
    if text == [] then [line.bytes]
    else if text[0] == LF || text[0] == CR then [line.bytes] + WrapFrom(AfterBreak(text), Started([], width), width)
    else if text[0] == SPACE || text[0] == TAB then WrapFrom(text[1..], line, width)
    else
      WordBounds(text);
      var word := WordAt(text);
      var p := Place(line, text[..word.0], word.1, width);
      p.rows + WrapFrom(text[word.0..], p.line, width)
  }

  function Wrapped(prefix: Text, text: Text, width: nat): seq<Text>
    requires |prefix| < PREFIX_MAX
  {
    if width == 0 then [] else WrapFrom(text, Started(prefix, width), width)
  }

  /** A row as it is handed to the screen, with the length of its emphasised start. */
  datatype Row = Row(text: Text, emphasis: nat)

  /** Only a message's first row is emphasised. */
  function Marked(rows: seq<Text>, emphasis: nat): (r: seq<Row>)
    ensures |r| == |rows| && forall i :: 0 <= i < |r| ==> r[i].text == rows[i]
    ensures (r != [] ==> r[0].emphasis == emphasis) && forall i :: 0 < i < |r| ==> r[i].emphasis == 0
  {
    seq(|rows|, i requires 0 <= i < |rows| => Row(rows[i], if i == 0 then emphasis else 0))
  }

  lemma MarkedSnoc(rows: seq<Text>, row: Text, emphasis: nat)
    ensures Marked(rows + [row], emphasis)
         == Marked(rows, emphasis) + [Row(row, if rows == [] then emphasis else 0)]
  {
  }

  // ----- the loops -----

  /** Placing the rest of a word from here completes the placing of the word. */
  ghost predicate Placing(p: Placed, before: seq<Text>, line: Line, done: seq<Text>, word: Text, cols: nat,
                          width: nat)
  {
    && width > 0 && Open(line) && cols == Cols(word)
    && p.line == Place(line, word, cols, width).line
    && before + p.rows == done + Place(line, word, cols, width).rows
  }

  lemma PlacedHere(p: Placed, before: seq<Text>, line: Line, done: seq<Text>, word: Text, cols: nat, width: nat)
    requires Placing(p, before, line, done, word, cols, width)
    requires cols == 0 || WordFits(line, cols, width)
    ensures before + p.rows == done && p.line == if cols == 0 then line else WithWord(line, word, cols)
  {
    assert done + [] == done;
  }

  lemma PlacedInPart(p: Placed, before: seq<Text>, line: Line, done: seq<Text>, word: Text, cols: nat, width: nat)
    requires Placing(p, before, line, done, word, cols, width)
    requires cols > 0 && !WordFits(line, cols, width) && !line.hasText && RoomIn(line, width) > 0
    ensures var taken := Cut(line, word, width);
      && 0 < taken.0 <= |word| && 0 < taken.1 < cols && |line.bytes| + taken.0 < LINE_MAX
      && Placing(p, before, Started([], width), done + [line.bytes + word[..taken.0]],
                 word[taken.0..], cols - taken.1, width)
  {
    CutProgresses(line, word, RoomIn(line, width));
    TakeCols(word, RoomIn(line, width), LINE_MAX - |line.bytes| - 1);
    var taken := Cut(line, word, width);
    var rest := Place(Started([], width), word[taken.0..], cols - taken.1, width);
    assert done + ([line.bytes + word[..taken.0]] + rest.rows) == done + [line.bytes + word[..taken.0]] + rest.rows;
  }

  lemma PlacedBelow(p: Placed, before: seq<Text>, line: Line, done: seq<Text>, word: Text, cols: nat, width: nat)
    requires Placing(p, before, line, done, word, cols, width)
    requires cols > 0 && !WordFits(line, cols, width) && (line.hasText || RoomIn(line, width) == 0)
    ensures Placing(p, before, Started([], width), done + [line.bytes], word, cols, width)
  {
    var rest := Place(Started([], width), word, cols, width);
    assert done + ([line.bytes] + rest.rows) == done + [line.bytes] + rest.rows;
  }

  /** The locals of chat_emit_wrapped_message: a line buffer, its counters and the rows emitted. */
  class Layout {
    const width: nat
    const draw: bool
    const firstEmphasis: nat
    const line: array<Byte>
    var bytes: nat
    var cols: nat
    var hasText: bool
    var emphasis: nat
    var emitted: nat
    var rows: seq<Row>
    ghost var done: seq<Text>

    /** The buffer is terminated; the counting pass emits nothing but counts the same. */
    ghost predicate Valid()
      reads this, line
    {
      && width > 0 && line.Length == LINE_MAX
      && bytes < LINE_MAX && line[bytes] == 0 && Open(View())
      && emitted == |done|
      && emphasis == (if done == [] then firstEmphasis else 0)
      && rows == (if draw then Marked(done, firstEmphasis) else [])
    }

    ghost function View(): Line
      reads this, line
      requires bytes < line.Length
    {
      Line(line[..bytes], cols, hasText)
    }

    constructor (prefix: Text, width: nat, draw: bool, emphasis: nat)
      requires width > 0 && |prefix| < PREFIX_MAX
      ensures Valid() && fresh(line) && View() == Started(prefix, width) && done == []
      ensures this.width == width && this.draw == draw && firstEmphasis == emphasis
    {
      this.width, this.draw, this.firstEmphasis, this.emphasis := width, draw, emphasis, emphasis;
      line := new Byte[LINE_MAX](_ => 0);
      bytes, cols, hasText, emitted, rows, done := 0, 0, false, 0, [], [];
      new;
      Init(prefix);
    }

    /** chat_line_init */
    method Init(prefix: Text)
      requires width > 0 && line.Length == LINE_MAX && |prefix| < PREFIX_MAX
      modifies this`bytes, this`cols, this`hasText, line
      ensures bytes < LINE_MAX && line[bytes] == 0 && View() == Started(prefix, width) && Open(View())
    {
      var n, c := TakeColumns(prefix, width, LINE_MAX - 1);
      Copy(0, prefix[..n]);
      line[n] := 0;
      bytes, cols, hasText := n, c, false;
    }

    method Copy(at: nat, text: Text)
      requires at + |text| <= line.Length
      modifies line
      ensures line[..at] == old(line[..at]) && line[at..at + |text|] == text
    {
      forall i | 0 <= i < |text| {
        line[at + i] := text[i];
      }
    }

    /** chat_line_append */
    method Append(text: Text, textCols: nat)
      requires bytes < LINE_MAX == line.Length && line[bytes] == 0
      modifies this`bytes, this`cols, line
      ensures bytes < LINE_MAX && line[bytes] == 0
      ensures View() == Appended(old(View()), text, textCols)
    {
      if text == [] || bytes + |text| >= LINE_MAX {
        return;
      }
      Copy(bytes, text);
      line[bytes + |text|] := 0;
      assert line[..bytes + |text|] == line[..bytes] + line[bytes..bytes + |text|];
      bytes, cols := bytes + |text|, cols + textCols;
    }

    /** Handing the line to the screen; only the first row carries emphasis. */
    method Emit()
      requires Valid()
      modifies this`rows, this`emitted, this`emphasis, this`done
      ensures Valid() && View() == old(View()) && done == old(done) + [View().bytes]
    {
      MarkedSnoc(done, line[..bytes], firstEmphasis);
      if draw {
        rows := rows + [Row(line[..bytes], emphasis)];
      }
      done := done + [line[..bytes]];
      emitted := emitted + 1;
      emphasis := 0;
    }

    /** The outer loop's body: a line break, a blank, or a word. */
    method Advance(text: Text, ghost all: seq<Text>) returns (rest: Text)
      requires Valid() && text != [] && Wrapping(all, done, text, View(), width)
      modifies this, line
      ensures Valid() && |rest| < |text| && Wrapping(all, done, rest, View(), width)
    {
      if text[0] == LF || text[0] == CR {
        WrapsBreak(all, done, text, View(), width);
        Emit();
        rest := AfterBreak(text);
        Init([]);
      } else if text[0] == SPACE || text[0] == TAB {
        rest := text[1..];
      } else {
        WrapsWord(all, done, text, View(), width);
        var bytes, wordCols := ScanWord(text);
        PlaceWord(text[..bytes], wordCols);
        rest := text[bytes..];
      }
    }

    /** The inner loop: a word goes on the line, or is cut, or starts a new line. */
    method PlaceWord(text: Text, textCols: nat)
      requires Valid() && textCols == Cols(text)
      modifies this, line
      ensures Valid()
      ensures var p := Place(old(View()), text, textCols, width);
        done == old(done) + p.rows && View() == p.line
    {
      var word: Text, remaining: nat := text, textCols;
      ghost var p, before := Place(View(), text, textCols, width), done;
      while remaining > 0
        invariant Valid() && Placing(p, before, View(), done, word, remaining, width)
        decreases remaining, hasText || RoomIn(View(), width) == 0
      {
        if remaining + (if hasText then 1 else 0) <= (if cols < width then width - cols else 0) {
          PlacedHere(p, before, View(), done, word, remaining, width);
          AppendWord(word, remaining);
          return;
        }
        word, remaining := NextLine(word, remaining, p, before);
      }
      PlacedHere(p, before, View(), done, word, remaining, width);
    }

    /** A word that does not fit: what fits of it goes on a line without text; then a new line begins. */
    method NextLine(word: Text, remaining: nat, ghost p: Placed, ghost before: seq<Text>)
      returns (rest: Text, restCols: nat)
      requires Valid() && Placing(p, before, View(), done, word, remaining, width)
      requires remaining > 0 && !WordFits(View(), remaining, width)
      modifies this, line
      ensures Valid() && Placing(p, before, View(), done, rest, restCols, width)
      ensures !hasText && RoomIn(View(), width) > 0
      ensures restCols <= remaining
      ensures !old(hasText) && RoomIn(old(View()), width) > 0 ==> restCols < remaining
    {
      rest, restCols := word, remaining;
      if !hasText && cols < width {
        PlacedInPart(p, before, View(), done, word, remaining, width);
        var taken, takenCols := AppendCut(word);
        rest, restCols := word[taken..], remaining - takenCols;
        if taken == 0 || takenCols == 0 || restCols == 0 {
          assert false;  // a line without text takes a character, and not the whole word
        }
      } else {
        PlacedBelow(p, before, View(), done, word, remaining, width);
      }
      Emit();
      Init([]);
    }

    method AppendCut(word: Text) returns (taken: nat, takenCols: nat)
      requires Valid() && !hasText && cols < width
      requires bytes + Cut(View(), word, width).0 < LINE_MAX
      modifies this`bytes, this`cols, this`hasText, line
      ensures Valid() && (taken, takenCols) == Cut(old(View()), word, width)
      ensures View().bytes == old(View()).bytes + word[..taken]
    {
      taken, takenCols := TakeColumns(word, width - cols, LINE_MAX - bytes - 1);
      Append(word[..taken], takenCols);
      hasText := true;
    }

    method AppendWord(word: Text, wordCols: nat)
      requires Valid()
      modifies this`bytes, this`cols, this`hasText, line
      ensures Valid() && View() == WithWord(old(View()), word, wordCols)
    {
      if hasText {
        Append([SPACE], 1);
      }
      Append(word, wordCols);
      hasText := true;
    }
  }

  /** chat_emit_wrapped_message; without `draw` it only counts. */
  method EmitWrapped(prefix: Text, emphasis: nat, message: Text, width: nat, draw: bool)
    returns (emitted: nat, rows: seq<Row>)
    requires |prefix| < PREFIX_MAX
    ensures emitted == |Wrapped(prefix, message, width)|
    ensures rows == if draw then Marked(Wrapped(prefix, message, width), emphasis) else []
  {
    if width == 0 {
      return 0, [];
    }
    var layout := new Layout(prefix, width, draw, emphasis);
    var text := message;
    ghost var all := Wrapped(prefix, message, width);
    while text != []
      invariant layout.Valid() && layout.width == width && layout.draw == draw && layout.firstEmphasis == emphasis
      invariant fresh(layout) && fresh(layout.line)
      invariant Wrapping(all, layout.done, text, layout.View(), width)
      decreases |text|
    {
      text := layout.Advance(text, all);
    }
    layout.Emit();
    return layout.emitted, layout.rows;
  }

  /** Wrapping the rest of the text from here completes the rows of the message. */
  ghost predicate Wrapping(all: seq<Text>, done: seq<Text>, text: Text, line: Line, width: nat) {
    width > 0 && Open(line) && all == done + WrapFrom(text, line, width)
  }

  lemma WrapsBreak(all: seq<Text>, done: seq<Text>, text: Text, line: Line, width: nat)
    requires Wrapping(all, done, text, line, width) && text != [] && (text[0] == LF || text[0] == CR)
    ensures Wrapping(all, done + [line.bytes], AfterBreak(text), Started([], width), width)
  {
    var rest := WrapFrom(AfterBreak(text), Started([], width), width);
    assert done + ([line.bytes] + rest) == done + [line.bytes] + rest;
  }

  lemma WrapsWord(all: seq<Text>, done: seq<Text>, text: Text, line: Line, width: nat)
    requires Wrapping(all, done, text, line, width) && text != [] && !Blank(text[0])
    ensures var word := WordAt(text);
      && word.0 > 0 && word.1 == Cols(text[..word.0])
      && var p := Place(line, text[..word.0], word.1, width);
         Wrapping(all, done + p.rows, text[word.0..], p.line, width)
  {
    WordBounds(text);
    var word := WordAt(text);
    var p := Place(line, text[..word.0], word.1, width);
    var rest := WrapFrom(text[word.0..], p.line, width);
    assert done + (p.rows + rest) == done + p.rows + rest;
  }
}
