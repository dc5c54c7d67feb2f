/** What word wrap guarantees: rows fit the window, and when no text is lost. */
module ChatWrapTheorems {
  import opened ChatText
  import opened ChatWrap
  import ChatRing

  // ----- every row fits -----

  /** The counted columns are an upper bound of the real ones, and stay within the width. */
  ghost predicate LineFits(line: Line, width: nat) {
    Open(line) && Cols(line.bytes) <= line.cols <= width
  }

  ghost predicate RowFits(row: Text, width: nat) {
    Cols(row) <= width && |row| < LINE_MAX
  }

  lemma StartFits(prefix: Text, width: nat)
    requires |prefix| < PREFIX_MAX
    ensures LineFits(Started(prefix, width), width)
  {
    TakeCols(prefix, width, LINE_MAX - 1);
  }

  lemma AppendFits(line: Line, text: Text, cols: nat, width: nat)
    requires LineFits(line, width) && Cols(text) == cols && line.cols + cols <= width && line.hasText
    ensures LineFits(Appended(line, text, cols), width)
  {
    ColsOfJoin(line.bytes, text);
  }

  lemma WithWordFits(line: Line, word: Text, cols: nat, width: nat)
    requires LineFits(line, width) && Cols(word) == cols && WordFits(line, cols, width)
    ensures LineFits(WithWord(line, word, cols), width)
  {
    var spaced := if line.hasText then Appended(line, [SPACE], 1) else line.(hasText := true);
    assert Cols([SPACE]) == 1;
    if line.hasText {
      AppendFits(line, [SPACE], 1, width);
    }
    AppendFits(spaced, word, cols, width);
  }

  lemma {:induction false} PlaceFits(line: Line, word: Text, cols: nat, width: nat)
    requires width > 0 && LineFits(line, width) && cols == Cols(word)
    ensures var p := Place(line, word, cols, width);
      LineFits(p.line, width) && forall r :: r in p.rows ==> RowFits(r, width)
    decreases cols, line.hasText || RoomIn(line, width) == 0
  {
    hide CharLen;
    if cols == 0 {
    } else if WordFits(line, cols, width) {
      WithWordFits(line, word, cols, width);
    } else if !line.hasText && RoomIn(line, width) > 0 {
      var taken := Cut(line, word, width);
      CutProgresses(line, word, RoomIn(line, width));
      TakeCols(word, RoomIn(line, width), LINE_MAX - |line.bytes| - 1);
      ColsOfJoin(line.bytes, word[..taken.0]);
      StartFits([], width);
      PlaceFits(Started([], width), word[taken.0..], cols - taken.1, width);
    } else {
      StartFits([], width);
      PlaceFits(Started([], width), word, cols, width);
    }
  }

  lemma {:induction false} WrapFits(text: Text, line: Line, width: nat)
    requires width > 0 && LineFits(line, width)
    ensures forall r :: r in WrapFrom(text, line, width) ==> RowFits(r, width)
    decreases |text|
  {
    if text == [] {
    } else if text[0] == LF || text[0] == CR {
      StartFits([], width);
      WrapFits(AfterBreak(text), Started([], width), width);
    } else if text[0] == SPACE || text[0] == TAB {
      WrapFits(text[1..], line, width);
    } else {
      WordBounds(text);
      var word := WordAt(text);
      PlaceFits(line, text[..word.0], word.1, width);
      WrapFits(text[word.0..], Place(line, text[..word.0], word.1, width).line, width);
    }
  }

  /** Every row of every message fits the window's columns and the line buffer. */
  lemma RowsFit(prefix: Text, text: Text, width: nat)
    requires |prefix| < PREFIX_MAX
    ensures forall r :: r in Wrapped(prefix, text, width) ==> RowFits(r, width)
  {
    if width > 0 {
      StartFits(prefix, width);
      WrapFits(text, Started(prefix, width), width);
    }
  }

  // ----- reading the rows back -----

  /** Each run of blanks becomes one space; `after` says whether a blank came just before. */
  function Squeeze(after: bool, t: Text): Text
    decreases |t|
  {
    if t == [] then []
    else if Blank(t[0]) then (if after then [] else [SPACE]) + Squeeze(true, t[1..])
    else [t[0]] + Squeeze(false, t[1..])
  }

  function EndsBlank(after: bool, t: Text): bool {
    if t == [] then after else Blank(t[|t| - 1])
  }

  lemma {:induction false} SqueezeJoin(after: bool, a: Text, b: Text)
    ensures Squeeze(after, a + b) == Squeeze(after, a) + Squeeze(EndsBlank(after, a), b)
    decreases |a|
  {
    if a == [] {
      assert a + b == b;
    } else {
      assert (a + b)[1..] == a[1..] + b;
      SqueezeJoin(Blank(a[0]), a[1..], b);
    }
  }

  /** Rows one after the other, each followed by a space unless the next continues its last word. */
  function Lead(rows: seq<Text>, glue: seq<bool>): Text
    requires |rows| == |glue|
  {
    if rows == [] then []
    else rows[0] + (if glue[0] then [] else [SPACE]) + Lead(rows[1..], glue[1..])
  }

  function Flow(rows: seq<Text>, glue: seq<bool>): Text
    requires |rows| == |glue| + 1
  {
    Lead(rows[..|glue|], glue) + rows[|glue|]
  }

  /** Rows of which the first is headed by the prefix. */
  function Headed(head: Text, rows: seq<Text>): seq<Text>
    requires rows != []
  {
    [head + rows[0]] + rows[1..]
  }

  lemma {:induction false} LeadJoin(xs: seq<Text>, g: seq<bool>, ys: seq<Text>, h: seq<bool>)
    requires |xs| == |g| && |ys| == |h|
    ensures Lead(xs + ys, g + h) == Lead(xs, g) + Lead(ys, h)
  {
    if xs == [] {
      assert xs + ys == ys && g + h == h;
    } else {
      assert (xs + ys)[1..] == xs[1..] + ys && (g + h)[1..] == g[1..] + h;
      LeadJoin(xs[1..], g[1..], ys, h);
      var first := xs[0] + (if g[0] then [] else [SPACE]);
      assert first + (Lead(xs[1..], g[1..]) + Lead(ys, h)) == (first + Lead(xs[1..], g[1..])) + Lead(ys, h);
    }
  }

  /** A line whose bytes are the head and the text put on it so far. */
  ghost predicate Recording(line: Line, head: Text, body: Text) {
    && Open(line) && line.bytes == head + body
    && (if line.hasText then body != [] && !Blank(body[|body| - 1]) else body == [])
  }

  ghost predicate NoBlanks(word: Text) {
    forall i :: 0 <= i < |word| ==> !Blank(word[i])
  }

  lemma PlaceCuts(line: Line, word: Text, cols: nat, width: nat)
    requires width > 0 && Open(line) && cols == Cols(word) && cols > 0 && !WordFits(line, cols, width)
    requires !line.hasText && RoomIn(line, width) > 0
    ensures var n := Cut(line, word, width);
      && n.0 <= |word| && 0 < n.1 < cols && Cols(word[n.0..]) == cols - n.1
      && var rest := Place(Started([], width), word[n.0..], cols - n.1, width);
         Place(line, word, cols, width) == Placed([line.bytes + word[..n.0]] + rest.rows, rest.line)
  {
    var p := Place(line, word, cols, width);
    PlacedInPart(p, [], line, [], word, cols, width);
    assert [] + p.rows == p.rows;
  }

  /** The buffer has room for the word behind what is on the line. */
  predicate HasRoom(line: Line, word: Text) {
    |line.bytes| + (if line.hasText then 1 else 0) + |word| < LINE_MAX
  }

  /** The last piece of the word, the one that goes on a line whole, has room there. */
  ghost predicate WordKept(line: Line, word: Text, cols: nat, width: nat)
    requires width > 0 && Open(line) && cols == Cols(word)
    decreases cols, line.hasText || RoomIn(line, width) == 0
  {
    if cols == 0 then true
    else if WordFits(line, cols, width) then HasRoom(line, word)
    else if !line.hasText && RoomIn(line, width) > 0 then
      PlaceCuts(line, word, cols, width);
      var n := Cut(line, word, width);
      WordKept(Started([], width), word[n.0..], cols - n.1, width)
    else WordKept(Started([], width), word, cols, width)
  }

  /** From here on every word has room where it goes. */
  ghost predicate NothingDropped(text: Text, line: Line, width: nat)
    requires width > 0 && Open(line)
    decreases |text|
  {
    if text == [] then true
    else if text[0] == LF || text[0] == CR then NothingDropped(AfterBreak(text), Started([], width), width)
    else if text[0] == SPACE || text[0] == TAB then NothingDropped(text[1..], line, width)
    else
      WordBounds(text);
      var n := WordAt(text);
      && WordKept(line, text[..n.0], n.1, width)
      && NothingDropped(text[n.0..], Place(line, text[..n.0], n.1, width).line, width)
  }

  lemma StartRecords(prefix: Text, width: nat)
    requires |prefix| < PREFIX_MAX
    ensures Recording(Started(prefix, width), Started(prefix, width).bytes, [])
  {
    TakeSize(prefix, width, LINE_MAX - 1);
  }

  lemma WordIsKept(line: Line, head: Text, body: Text, word: Text, cols: nat) returns (last: Text)
    requires Recording(line, head, body) && word != [] && NoBlanks(word) && HasRoom(line, word)
    ensures last == (if line.hasText then body + [SPACE] else []) + word
    ensures Recording(WithWord(line, word, cols), head, last)
  {
    last := (if line.hasText then body + [SPACE] else []) + word;
    assert head + last == line.bytes + (if line.hasText then [SPACE] else []) + word;
    assert last[|last| - 1] == word[|word| - 1];
  }

  /** `rows`, glued as `glue` says and ending in `last`, are the text put down by `p` below `head`. */
  ghost predicate Recovered(p: Placed, head: Text, text: Text, rows: seq<Text>, glue: seq<bool>, last: Text)
  {
    && |rows| == |glue| == |p.rows|
    && p.rows + [p.line.bytes] == Headed(head, rows + [last])
    && Recording(p.line, if rows == [] then head else [], last) && p.line.hasText
    && Lead(rows, glue) + last == text
  }

  lemma LeadCons(row: Text, glued: bool, more: seq<Text>, moreGlue: seq<bool>)
    requires |more| == |moreGlue|
    ensures Lead([row] + more, [glued] + moreGlue) == row + (if glued then [] else [SPACE]) + Lead(more, moreGlue)
  {
    assert ([row] + more)[1..] == more && ([glued] + moreGlue)[1..] == moreGlue;
  }

  lemma HeadedByNothing(rows: seq<Text>)
    requires rows != []
    ensures Headed([], rows) == rows
  {
    assert [] + rows[0] == rows[0];
  }

  lemma HeadedNext(head: Text, row: Text, rows: seq<Text>, more: seq<Text>, below: Text, last: Text)
    requires rows + [below] == Headed([], more + [last])
    ensures [head + row] + rows + [below] == Headed(head, [row] + more + [last])
  {
    HeadedByNothing(more + [last]);
    assert ([row] + more + [last])[1..] == more + [last];
    assert [head + row] + rows + [below] == [head + row] + (rows + [below]);
  }

  /** A row put in front of what a fresh line recovers. */
  lemma RowInFront(p: Placed, head: Text, text: Text, more: seq<Text>, moreGlue: seq<bool>, last: Text,
                   row: Text, glued: bool)
    requires Recovered(p, [], text, more, moreGlue, last)
    ensures Recovered(Placed([head + row] + p.rows, p.line), head, row + (if glued then [] else [SPACE]) + text,
                      [row] + more, [glued] + moreGlue, last)
  {
    LeadCons(row, glued, more, moreGlue);
    HeadedNext(head, row, p.rows, more, p.line.bytes, last);
    Associates(row + (if glued then [] else [SPACE]), Lead(more, moreGlue), last);
  }

  lemma Associates(a: Text, b: Text, c: Text)
    ensures a + b + c == a + (b + c)
  {
  }

  /** What the line and the word together read. */
  function LineAnd(line: Line, body: Text, word: Text): Text {
    (if line.hasText then body + [SPACE] else []) + word
  }

  lemma PlaceSkips(line: Line, word: Text, cols: nat, width: nat)
    requires width > 0 && Open(line) && cols == Cols(word) && cols > 0 && !WordFits(line, cols, width)
    requires line.hasText || RoomIn(line, width) == 0
    ensures var rest := Place(Started([], width), word, cols, width);
      Place(line, word, cols, width) == Placed([line.bytes] + rest.rows, rest.line)
  {
  }

  lemma PlaceWhole(line: Line, head: Text, body: Text, word: Text, cols: nat, width: nat) returns (last: Text)
    requires width > 0 && Recording(line, head, body) && WordFits(line, cols, width)
    requires word != [] && NoBlanks(word) && cols == Cols(word) && HasRoom(line, word)
    ensures Recovered(Place(line, word, cols, width), head, LineAnd(line, body, word), [], [], last)
  {
    last := WordIsKept(line, head, body, word, cols);
    assert [] + [last] == [last] && [] + last == last;
  }

  /** The pieces a word is placed in make up the word, and follow what is on the line. */
  lemma {:induction false} PlaceRecovers(line: Line, head: Text, body: Text, word: Text, cols: nat, width: nat)
    returns (rows: seq<Text>, glue: seq<bool>, last: Text)
    requires width > 0 && Recording(line, head, body)
    requires word != [] && NoBlanks(word) && cols == Cols(word) && WordKept(line, word, cols, width)
    ensures Recovered(Place(line, word, cols, width), head, LineAnd(line, body, word), rows, glue, last)
    decreases cols, line.hasText || RoomIn(line, width) == 0, 1
  {
    if WordFits(line, cols, width) {
      last := PlaceWhole(line, head, body, word, cols, width);
      rows, glue := [], [];
    } else if !line.hasText && RoomIn(line, width) > 0 {
      rows, glue, last := CutRecovers(line, head, body, word, cols, width);
    } else {
      rows, glue, last := SkipRecovers(line, head, body, word, cols, width);
    }
  }

  lemma {:induction false} CutRecovers(line: Line, head: Text, body: Text, word: Text, cols: nat, width: nat)
    returns (rows: seq<Text>, glue: seq<bool>, last: Text)
    requires width > 0 && Recording(line, head, body) && NoBlanks(word) && cols == Cols(word) > 0
    requires !WordFits(line, cols, width) && !line.hasText && RoomIn(line, width) > 0
    requires WordKept(line, word, cols, width)
    ensures Recovered(Place(line, word, cols, width), head, LineAnd(line, body, word), rows, glue, last)
    decreases cols, false, 0
  {
    PlaceCuts(line, word, cols, width);
    var n := Cut(line, word, width);
    assert word == word[..n.0] + word[n.0..];
    rows, glue, last := Below(line, head, body, word[..n.0], word[n.0..], cols - n.1, width);
  }

  lemma {:induction false} SkipRecovers(line: Line, head: Text, body: Text, word: Text, cols: nat, width: nat)
    returns (rows: seq<Text>, glue: seq<bool>, last: Text)
    requires width > 0 && Recording(line, head, body) && NoBlanks(word) && cols == Cols(word) > 0
    requires !WordFits(line, cols, width) && (line.hasText || RoomIn(line, width) == 0)
    requires WordKept(line, word, cols, width)
    ensures Recovered(Place(line, word, cols, width), head, LineAnd(line, body, word), rows, glue, last)
    decreases cols, false, 3
  {
    PlaceSkips(line, word, cols, width);
    assert [] + word == word && line.bytes + [] == line.bytes;
    rows, glue, last := Below(line, head, body, [], word, cols, width);
  }

  /** A piece on this line and the rest of the word on fresh ones. */
  lemma {:induction false} Below(line: Line, head: Text, body: Text, piece: Text, left: Text, cols: nat, width: nat)
    returns (rows: seq<Text>, glue: seq<bool>, last: Text)
    requires width > 0 && Recording(line, head, body) && (line.hasText ==> piece == [])
    requires left != [] && NoBlanks(left) && cols == Cols(left)
    requires WordKept(Started([], width), left, cols, width)
    ensures var rest := Place(Started([], width), left, cols, width);
      Recovered(Placed([line.bytes + piece] + rest.rows, rest.line), head, LineAnd(line, body, piece + left),
                rows, glue, last)
    decreases cols, false, 2
  {
    StartRecords([], width);
    var more, moreGlue, end := PlaceRecovers(Started([], width), [], [], left, cols, width);
    FreshLine(left, width);
    var rest := Place(Started([], width), left, cols, width);
    RowInFront(rest, head, left, more, moreGlue, end, body + piece, !line.hasText);
    LineAndPiece(line, head, body, piece, left);
    rows, glue, last := [body + piece] + more, [!line.hasText] + moreGlue, end;
  }

  lemma FreshLine(word: Text, width: nat)
    ensures LineAnd(Started([], width), [], word) == word
  {
  }

  lemma LineAndPiece(line: Line, head: Text, body: Text, piece: Text, left: Text)
    requires line.bytes == head + body && (line.hasText ==> piece == []) && (!line.hasText ==> body == [])
    ensures body + piece + (if line.hasText then [SPACE] else []) + left == LineAnd(line, body, piece + left)
    ensures head + (body + piece) == line.bytes + piece
  {
  }

  // ----- the whole message -----

  lemma SliceOfJoin(xs: seq<Text>, ys: seq<Text>, n: nat)
    requires n < |ys|
    ensures (xs + ys)[..|xs| + n] == xs + ys[..n] && (xs + ys)[|xs| + n] == ys[n]
  {
  }

  lemma FlowJoin(xs: seq<Text>, g: seq<bool>, ys: seq<Text>, h: seq<bool>)
    requires |xs| == |g| && |ys| == |h| + 1
    ensures Flow(xs + ys, g + h) == Lead(xs, g) + Flow(ys, h)
  {
    hide Lead;
    LeadJoin(xs, g, ys[..|h|], h);
    SliceOfJoin(xs, ys, |h|);
    Associates(Lead(xs, g), Lead(ys[..|h|], h), ys[|h|]);
  }

  /** Equal up to blanks: the same words in the same order, with the same ends. */
  ghost predicate SameWords(after: bool, a: Text, b: Text) {
    Squeeze(after, a + [SPACE]) == Squeeze(after, b + [SPACE])
  }

  lemma SameAfter(after: bool, front: Text, a: Text, b: Text)
    requires SameWords(EndsBlank(after, front), a, b)
    ensures SameWords(after, front + a, front + b)
  {
    assert front + a + [SPACE] == front + (a + [SPACE]);
    assert front + b + [SPACE] == front + (b + [SPACE]);
    SqueezeJoin(after, front, a + [SPACE]);
    SqueezeJoin(after, front, b + [SPACE]);
  }

  /** A blank before a blank, or before the end, makes no difference. */
  lemma BlankIsIdle(after: bool, text: Text)
    requires after || text == [] || Blank(text[0])
    ensures SameWords(after, [SPACE] + text, text)
  {
    assert ([SPACE] + text + [SPACE])[1..] == text + [SPACE];
    assert (text + [SPACE])[0] == if text == [] then SPACE else text[0];
  }

  /** The rows from here on, below the head, read like the line and the rest of the text. */
  ghost predicate Reads(all: seq<Text>, head: Text, after: bool, text: Text, rows: seq<Text>, glue: seq<bool>) {
    |rows| == |glue| + 1 && all == Headed(head, rows) && SameWords(after, Flow(rows, glue), text)
  }

  lemma BreakReads(line: Line, head: Text, body: Text, text: Text, width: nat, after: bool, rows: seq<Text>,
                   glue: seq<bool>)
    requires width > 0 && Recording(line, head, body)
    requires text != [] && (text[0] == LF || text[0] == CR)
    requires Reads(WrapFrom(AfterBreak(text), Started([], width), width), [], true,
                   [SPACE] + AfterBreak(text), rows, glue)
    ensures Reads(WrapFrom(text, line, width), head, after, body + [SPACE] + text, [body] + rows, [false] + glue)
  {
    FlowJoin([body], [false], rows, glue);
    LeadCons(body, false, [], []);
    assert [body] + [] == [body] && [false] + [] == [false] && body + [SPACE] + [] == body + [SPACE];
    HeadedByNothing(rows);
    assert ([body] + rows)[1..] == rows;
    SkipsBreak(text);
    SameAfter(after, body + [SPACE], Flow(rows, glue), text);
  }

  /** A line break is a blank, and so is the second half of a CR LF pair. */
  lemma SkipsBreak(text: Text)
    requires text != [] && (text[0] == LF || text[0] == CR)
    ensures Squeeze(true, [SPACE] + AfterBreak(text) + [SPACE]) == Squeeze(true, text + [SPACE])
  {
    var rest := AfterBreak(text);
    assert ([SPACE] + rest + [SPACE])[1..] == rest + [SPACE];
    assert (text + [SPACE])[1..] == text[1..] + [SPACE];
    if |text| > 1 && text[0] == CR && text[1] == LF {
      assert (text[1..] + [SPACE])[1..] == rest + [SPACE];
    }
  }

  lemma BlankReads(line: Line, head: Text, body: Text, text: Text, width: nat, after: bool, rows: seq<Text>,
                   glue: seq<bool>)
    requires width > 0 && Recording(line, head, body)
    requires text != [] && (text[0] == SPACE || text[0] == TAB)
    requires Reads(WrapFrom(text[1..], line, width), head, after, body + [SPACE] + text[1..], rows, glue)
    ensures Reads(WrapFrom(text, line, width), head, after, body + [SPACE] + text, rows, glue)
  {
    var front := body + [SPACE];
    assert (text + [SPACE])[1..] == text[1..] + [SPACE];
    assert SameWords(true, text[1..], text);
    SameAfter(after, front, text[1..], text);
  }

  /** Rows that follow the placed ones; the first of them continues the line the word ended on. */
  lemma HeadedJoin(head: Text, placed: seq<Text>, below: Text, rows: seq<Text>, last: Text, rest: seq<Text>)
    requires placed + [below] == Headed(head, rows + [last]) && |placed| == |rows| && rest != []
    ensures placed + Headed(if rows == [] then head else [], rest) == Headed(head, rows + rest)
  {
    if rows == [] {
      assert rows + rest == rest;
      assert placed + Headed(head, rest) == Headed(head, rest);
    } else {
      HeadedByNothing(rest);
      assert Headed(head, rows + [last]) == [head + rows[0]] + rows[1..] + [last];
      assert placed == (placed + [below])[..|placed|] == [head + rows[0]] + rows[1..];
      assert (rows + rest)[1..] == rows[1..] + rest;
    }
  }

  lemma WordReads(line: Line, head: Text, body: Text, p: Placed, word: Text, left: Text, all: seq<Text>, width: nat,
                  after: bool, rows: seq<Text>, glue: seq<bool>, last: Text, rest: seq<Text>, restGlue: seq<bool>)
    requires Recording(line, head, body) && (after || line.hasText)
    requires Recovered(p, head, LineAnd(line, body, word), rows, glue, last)
    requires left == [] || Blank(left[0])
    requires Reads(all, if rows == [] then head else [], EndsBlank(after, Lead(rows, glue)),
                   last + [SPACE] + left, rest, restGlue)
    ensures Reads(p.rows + all, head, after, body + [SPACE] + (word + left), rows + rest, glue + restGlue)
  {
    HeadedJoin(head, p.rows, p.line.bytes, rows, last, rest);
    FlowJoin(rows, glue, rest, restGlue);
    var lead := Lead(rows, glue);
    SameAfter(after, lead, Flow(rest, restGlue), last + [SPACE] + left);
    assert lead + (last + [SPACE] + left) == LineAnd(line, body, word) + ([SPACE] + left);
    LastBlankIsIdle(after, lead + last, left);
    LineReads(line, head, body, word, left, after, width);
  }

  lemma LastBlankIsIdle(after: bool, text: Text, left: Text)
    requires left == [] || Blank(left[0])
    ensures SameWords(after, text + ([SPACE] + left), text + left)
  {
    BlankIsIdle(EndsBlank(after, text), left);
    SameAfter(after, text, [SPACE] + left, left);
  }

  lemma LineReads(line: Line, head: Text, body: Text, word: Text, left: Text, after: bool, width: nat)
    requires Recording(line, head, body) && (after || line.hasText)
    ensures SameWords(after, LineAnd(line, body, word) + left, body + [SPACE] + (word + left))
  {
    if line.hasText {
      assert LineAnd(line, body, word) + left == body + [SPACE] + (word + left);
    } else {
      BlankIsIdle(after, word + left);
      assert LineAnd(line, body, word) + left == word + left;
      assert body + [SPACE] + (word + left) == [SPACE] + (word + left);
    }
  }

  lemma {:induction false} WrapReads(text: Text, line: Line, head: Text, body: Text, width: nat, after: bool)
    returns (rows: seq<Text>, glue: seq<bool>)
    requires width > 0 && Recording(line, head, body) && (after || line.hasText)
    requires NothingDropped(text, line, width)
    ensures Reads(WrapFrom(text, line, width), head, after, body + [SPACE] + text, rows, glue)
    decreases |text|
  {
    if text == [] {
      rows, glue := [body], [];
      assert Flow(rows, glue) == body;
      LastBlankIsIdle(after, body, []);
      assert body + [] == body && body + ([SPACE] + []) == body + [SPACE] + [];
    } else if text[0] == LF || text[0] == CR {
      StartRecords([], width);
      rows, glue := WrapReads(AfterBreak(text), Started([], width), [], [], width, true);
      assert [] + [SPACE] + AfterBreak(text) == [SPACE] + AfterBreak(text);
      BreakReads(line, head, body, text, width, after, rows, glue);
      rows, glue := [body] + rows, [false] + glue;
    } else if text[0] == SPACE || text[0] == TAB {
      rows, glue := WrapReads(text[1..], line, head, body, width, after);
      BlankReads(line, head, body, text, width, after, rows, glue);
    } else {
      rows, glue := WrapWordReads(text, line, head, body, width, after);
    }
  }

  lemma {:induction false} WrapWordReads(text: Text, line: Line, head: Text, body: Text, width: nat, after: bool)
    returns (rows: seq<Text>, glue: seq<bool>)
    requires width > 0 && Recording(line, head, body) && (after || line.hasText)
    requires text != [] && !Blank(text[0]) && NothingDropped(text, line, width)
    ensures Reads(WrapFrom(text, line, width), head, after, body + [SPACE] + text, rows, glue)
    decreases |text|, 0
  {
    WordBounds(text);
    var n := WordAt(text);
    var word, left := text[..n.0], text[n.0..];
    assert text == word + left;
    var p := Place(line, word, n.1, width);
    var last;
    rows, glue, last := PlaceRecovers(line, head, body, word, n.1, width);
    var rest, restGlue :=
      WrapReads(left, p.line, if rows == [] then head else [], last, width, EndsBlank(after, Lead(rows, glue)));
    WordReads(line, head, body, p, word, left, WrapFrom(left, p.line, width), width, after, rows, glue, last,
              rest, restGlue);
    rows, glue := rows + rest, glue + restGlue;
  }

  /**
   Where nothing is dropped the rows below the prefix, read one after the
   other, are the message: the same words in the same order, each blank run at
   least one blank, and a word continued on the next row only where `glue` says so.
   */
  lemma RowsReadLikeTheMessage(prefix: Text, text: Text, width: nat) returns (rows: seq<Text>, glue: seq<bool>)
    requires |prefix| < PREFIX_MAX && width > 0 && NothingDropped(text, Started(prefix, width), width)
    ensures |rows| == |glue| + 1 && Wrapped(prefix, text, width) == Headed(Started(prefix, width).bytes, rows)
    ensures SameWords(true, Flow(rows, glue), text)
  {
    StartRecords(prefix, width);
    rows, glue := WrapReads(text, Started(prefix, width), Started(prefix, width).bytes, [], width, true);
    assert [] + [SPACE] + text == [SPACE] + text;
    BlankIsIdle(true, text);
  }

  // ----- nothing lost -----

  /** The bytes that leave ink. */
  function Ink(t: Text): Text {
    if t == [] then [] else (if Blank(t[0]) then [] else [t[0]]) + Ink(t[1..])
  }

  function Flatten(rows: seq<Text>): Text {
    if rows == [] then [] else rows[0] + Flatten(rows[1..])
  }

  lemma {:induction false} InkJoin(a: Text, b: Text)
    ensures Ink(a + b) == Ink(a) + Ink(b)
  {
    if a == [] {
      assert a + b == b;
    } else {
      assert (a + b)[1..] == a[1..] + b;
      InkJoin(a[1..], b);
    }
  }

  lemma {:induction false} InkSurvivesSqueeze(after: bool, t: Text)
    ensures Ink(Squeeze(after, t)) == Ink(t)
    decreases |t|
  {
    if t != [] {
      var rest := Squeeze(Blank(t[0]), t[1..]);
      InkSurvivesSqueeze(Blank(t[0]), t[1..]);
      if Blank(t[0]) {
        assert ([SPACE] + rest)[1..] == rest;
        assert [] + rest == rest;
      } else {
        assert ([t[0]] + rest)[1..] == rest;
      }
    }
  }

  lemma {:induction false} InkOfLead(rows: seq<Text>, glue: seq<bool>)
    requires |rows| == |glue|
    ensures Ink(Lead(rows, glue)) == Ink(Flatten(rows))
  {
    if rows != [] {
      InkOfLead(rows[1..], glue[1..]);
      var gap: Text := if glue[0] then [] else [SPACE];
      InkJoin(rows[0] + gap, Lead(rows[1..], glue[1..]));
      InkJoin(rows[0], gap);
      InkJoin(rows[0], Flatten(rows[1..]));
      assert Ink(gap) == [] by { if !glue[0] { assert [SPACE][1..] == []; } }
    }
  }

  lemma {:induction false} FlattenSnoc(rows: seq<Text>, row: Text)
    ensures Flatten(rows + [row]) == Flatten(rows) + row
  {
    if rows == [] {
      assert rows + [row] == [row] && Flatten([row][1..]) == [];
    } else {
      assert (rows + [row])[1..] == rows[1..] + [row];
      FlattenSnoc(rows[1..], row);
    }
  }

  lemma InkOfFlow(rows: seq<Text>, glue: seq<bool>)
    requires |rows| == |glue| + 1
    ensures Ink(Flow(rows, glue)) == Ink(Flatten(rows))
  {
    hide Ink, Flatten, Lead;
    var lead, last := rows[..|glue|], rows[|glue|];
    assert rows == lead + [last];
    FlattenSnoc(lead, last);
    InkOfLead(lead, glue);
    InkJoin(Lead(lead, glue), last);
    InkJoin(Flatten(lead), last);
  }

  lemma InkOfSame(a: Text, b: Text)
    requires SameWords(true, a, b)
    ensures Ink(a) == Ink(b)
  {
    InkSurvivesSqueeze(true, a + [SPACE]);
    InkSurvivesSqueeze(true, b + [SPACE]);
    InkJoin(a, [SPACE]);
    InkJoin(b, [SPACE]);
    assert Ink([SPACE]) == [] by { assert [SPACE][1..] == []; }
    assert Ink(a) + [] == Ink(a) && Ink(b) + [] == Ink(b);
  }

  /** The rows show the prefix and then all of the message's visible bytes, in order. */
  ghost predicate KeepsText(prefix: Text, text: Text, width: nat)
    requires |prefix| < PREFIX_MAX
  {
    Ink(Flatten(Wrapped(prefix, text, width))) == Ink(Started(prefix, width).bytes) + Ink(text)
  }

  lemma ReadingKeepsText(prefix: Text, text: Text, width: nat)
    requires |prefix| < PREFIX_MAX && width > 0 && NothingDropped(text, Started(prefix, width), width)
    ensures KeepsText(prefix, text, width)
  {
    var head := Started(prefix, width).bytes;
    var rows, glue := RowsReadLikeTheMessage(prefix, text, width);
    InkOfSame(Flow(rows, glue), text);
    InkOfFlow(rows, glue);
    assert Flatten(Headed(head, rows)) == head + Flatten(rows) by {
      assert Headed(head, rows)[1..] == rows[1..];
    }
    InkJoin(head, Flatten(rows));
  }

  // ----- what is lost is gone -----

  lemma {:induction false} WordIsInk(word: Text)
    requires NoBlanks(word)
    ensures Ink(word) == word
  {
    if word != [] {
      WordIsInk(word[1..]);
    }
  }

  /** How many visible bytes the rows and the line below them show. */
  function Visible(rows: seq<Text>, line: Line): nat {
    |Ink(Flatten(rows))| + |Ink(line.bytes)|
  }

  lemma VisibleInFront(row: Text, rows: seq<Text>, line: Line)
    ensures Visible([row] + rows, line) == |Ink(row)| + Visible(rows, line)
  {
    assert ([row] + rows)[1..] == rows;
    InkJoin(row, Flatten(rows));
  }

  lemma NoneVisible(line: Line)
    ensures Visible([], line) == |Ink(line.bytes)|
  {
  }

  lemma NoColumns(word: Text)
    requires Cols(word) == 0
    ensures word == []
  {
  }

  lemma FreshIsEmpty(width: nat)
    ensures Started([], width).bytes == [] && Ink([]) == []
  {
  }

  lemma WithWordShows(line: Line, word: Text, cols: nat)
    requires NoBlanks(word) && word != []
    ensures HasRoom(line, word) ==> |Ink(WithWord(line, word, cols).bytes)| == |Ink(line.bytes)| + |word|
    ensures !HasRoom(line, word) ==> |Ink(WithWord(line, word, cols).bytes)| == |Ink(line.bytes)|
  {
    InkJoin(line.bytes, [SPACE]);
    InkJoin(line.bytes, word);
    InkJoin(line.bytes + [SPACE], word);
    WordIsInk(word);
    assert Ink([SPACE]) == [] by { assert [SPACE][1..] == []; }
  }

  /** Placing a word shows as many more bytes as the word has, or fewer if it is not kept. */
  lemma {:induction false} PlaceShows(line: Line, word: Text, cols: nat, width: nat)
    requires width > 0 && Open(line) && cols == Cols(word) && NoBlanks(word)
    ensures var p := Place(line, word, cols, width);
      if WordKept(line, word, cols, width) then Visible(p.rows, p.line) == |Ink(line.bytes)| + |word|
      else Visible(p.rows, p.line) < |Ink(line.bytes)| + |word|
    decreases cols, line.hasText || RoomIn(line, width) == 0
  {
    hide Ink, Flatten, CharLen;
    if cols == 0 {
      NoColumns(word);
      NoneVisible(line);
    } else if WordFits(line, cols, width) {
      NoneVisible(WithWord(line, word, cols));
      WithWordShows(line, word, cols);
    } else if !line.hasText && RoomIn(line, width) > 0 {
      PlaceCuts(line, word, cols, width);
      var n := Cut(line, word, width);
      PlaceShows(Started([], width), word[n.0..], cols - n.1, width);
      FreshIsEmpty(width);
      var rest := Place(Started([], width), word[n.0..], cols - n.1, width);
      VisibleInFront(line.bytes + word[..n.0], rest.rows, rest.line);
      InkJoin(line.bytes, word[..n.0]);
      WordIsInk(word[..n.0]);
    } else {
      PlaceShows(Started([], width), word, cols, width);
      FreshIsEmpty(width);
      var rest := Place(Started([], width), word, cols, width);
      VisibleInFront(line.bytes, rest.rows, rest.line);
    }
  }

  lemma {:induction false} FlattenJoin(xs: seq<Text>, ys: seq<Text>)
    ensures Flatten(xs + ys) == Flatten(xs) + Flatten(ys)
  {
    if xs == [] {
      assert xs + ys == ys && [] + Flatten(ys) == Flatten(ys);
    } else {
      assert (xs + ys)[1..] == xs[1..] + ys;
      FlattenJoin(xs[1..], ys);
      Associates(xs[0], Flatten(xs[1..]), Flatten(ys));
    }
  }

  lemma OneRow(row: Text)
    ensures Flatten([row]) == row
  {
    assert [row][1..] == [] && row + [] == row;
  }

  lemma BlankHasNoInk(text: Text)
    requires text != [] && Blank(text[0])
    ensures Ink(text) == Ink(text[1..])
    ensures text[0] in {LF, CR} ==> Ink(text) == Ink(AfterBreak(text))
  {
    assert [] + Ink(text[1..]) == Ink(text[1..]);
    if text[0] == CR && |text| > 1 && text[1] == LF {
      assert text[1..][1..] == text[2..] && [] + Ink(text[2..]) == Ink(text[2..]);
    }
  }

  /** All rows show the line and the text from here on, or fewer bytes if anything is dropped. */
  lemma {:induction false} WrapShows(text: Text, line: Line, width: nat)
    requires width > 0 && Open(line)
    ensures var shown := |Ink(Flatten(WrapFrom(text, line, width)))|;
      if NothingDropped(text, line, width) then shown == |Ink(line.bytes)| + |Ink(text)|
      else shown < |Ink(line.bytes)| + |Ink(text)|
    decreases |text|
  {
    hide Flatten, CharLen, Place;
    if text == [] {
      OneRow(line.bytes);
    } else if text[0] == LF || text[0] == CR {
      WrapShows(AfterBreak(text), Started([], width), width);
      FreshIsEmpty(width);
      BlankHasNoInk(text);
      FlattenJoin([line.bytes], WrapFrom(AfterBreak(text), Started([], width), width));
      OneRow(line.bytes);
      InkJoin(line.bytes, Flatten(WrapFrom(AfterBreak(text), Started([], width), width)));
    } else if text[0] == SPACE || text[0] == TAB {
      BlankHasNoInk(text);
      WrapShows(text[1..], line, width);
    } else {
      WrapWordShows(text, line, width);
    }
  }

  lemma {:induction false} WrapWordShows(text: Text, line: Line, width: nat)
    requires width > 0 && Open(line) && text != [] && !Blank(text[0])
    ensures var shown := |Ink(Flatten(WrapFrom(text, line, width)))|;
      if NothingDropped(text, line, width) then shown == |Ink(line.bytes)| + |Ink(text)|
      else shown < |Ink(line.bytes)| + |Ink(text)|
    decreases |text|, 0
  {
    hide Ink, Flatten, CharLen, Place, WordKept, WordAt, Cols, Take;
    WordBounds(text);
    var n := WordAt(text);
    var word, left := text[..n.0], text[n.0..];
    var p := Place(line, word, n.1, width);
    PlaceShows(line, word, n.1, width);
    WrapShows(left, p.line, width);
    FlattenJoin(p.rows, WrapFrom(left, p.line, width));
    InkJoin(Flatten(p.rows), Flatten(WrapFrom(left, p.line, width)));
    WordIsInk(word);
    assert text == word + left;
    InkJoin(word, left);
  }

  lemma {:induction false} NoMoreInk(t: Text)
    ensures |Ink(t)| <= |t|
  {
    if t != [] {
      NoMoreInk(t[1..]);
    }
  }

  /**
   The exact condition, message by message: the rows show all of the text just when the
   buffer has room for each word on the line where the columns put its last piece.
   */
  lemma TextIsKeptExactlyWithRoom(prefix: Text, text: Text, width: nat)
    requires |prefix| < PREFIX_MAX && width > 0
    ensures KeepsText(prefix, text, width) <==> NothingDropped(text, Started(prefix, width), width)
  {
    if NothingDropped(text, Started(prefix, width), width) {
      ReadingKeepsText(prefix, text, width);
    } else {
      WrapShows(text, Started(prefix, width), width);
      NoMoreInk(Started(prefix, width).bytes);
    }
  }

  // ----- narrow windows -----

  lemma {:induction false} BytesPerColumn(t: Text)
    ensures |t| <= 4 * Cols(t)
  {
    if t != [] {
      BytesPerColumn(t[CharLen(t)..]);
    }
  }

  /** At most four bytes stand in each column counted. */
  ghost predicate Thin(line: Line, width: nat) {
    Open(line) && |line.bytes| <= 4 * line.cols <= 4 * width
  }

  lemma StartIsThin(prefix: Text, width: nat)
    requires |prefix| < PREFIX_MAX
    ensures Thin(Started(prefix, width), width)
  {
    TakeSize(prefix, width, LINE_MAX - 1);
  }

  lemma {:induction false} NarrowKeepsWord(line: Line, word: Text, cols: nat, width: nat)
    requires width > 0 && 4 * width < LINE_MAX && Thin(line, width) && cols == Cols(word)
    ensures WordKept(line, word, cols, width) && Thin(Place(line, word, cols, width).line, width)
    decreases cols, line.hasText || RoomIn(line, width) == 0
  {
    hide CharLen;
    BytesPerColumn(word);
    StartIsThin([], width);
    if cols == 0 || WordFits(line, cols, width) {
    } else if !line.hasText && RoomIn(line, width) > 0 {
      PlaceCuts(line, word, cols, width);
      var n := Cut(line, word, width);
      NarrowKeepsWord(Started([], width), word[n.0..], cols - n.1, width);
    } else {
      NarrowKeepsWord(Started([], width), word, cols, width);
    }
  }

  lemma {:induction false} NarrowDropsNothing(text: Text, line: Line, width: nat)
    requires width > 0 && 4 * width < LINE_MAX && Thin(line, width)
    ensures NothingDropped(text, line, width)
    decreases |text|
  {
    hide CharLen, Place, WordKept;
    StartIsThin([], width);
    if text == [] {
    } else if text[0] == LF || text[0] == CR {
      NarrowDropsNothing(AfterBreak(text), Started([], width), width);
    } else if text[0] == SPACE || text[0] == TAB {
      NarrowDropsNothing(text[1..], line, width);
    } else {
      WordBounds(text);
      var n := WordAt(text);
      NarrowKeepsWord(line, text[..n.0], n.1, width);
      NarrowDropsNothing(text[n.0..], Place(line, text[..n.0], n.1, width).line, width);
    }
  }

  lemma NarrowKeepsText(prefix: Text, text: Text, width: nat)
    requires |prefix| < PREFIX_MAX && width > 0 && 4 * width < LINE_MAX
    ensures KeepsText(prefix, text, width)
  {
    StartIsThin(prefix, width);
    NarrowDropsNothing(text, Started(prefix, width), width);
    TextIsKeptExactlyWithRoom(prefix, text, width);
  }

  /** The four-byte character U+10000, n times. */
  function Wide(n: nat): Text {
    if n == 0 then [] else [0xF0, 0x90, 0x80, 0x80] + Wide(n - 1)
  }

  lemma {:induction false} WideIsOneWord(n: nat)
    ensures |Wide(n)| == 4 * n && WordAt(Wide(n)) == (4 * n, n)
    ensures Terminated(Wide(n))
  {
    if n > 0 {
      WideIsOneWord(n - 1);
      assert Wide(n)[4..] == Wide(n - 1);
      forall i | 0 <= i < |Wide(n)|
        ensures Wide(n)[i] != 0
      {
        assert i >= 4 ==> Wide(n)[i] == Wide(n - 1)[i - 4];
      }
    }
  }

  /** A word that fits the columns of a line of its own but not the buffer. */
  lemma LongWordIsDropped(line: Line, word: Text, cols: nat, width: nat)
    requires width > 0 && Open(line)
    requires word != [] && WordAt(word) == (|word|, cols) && |word| >= LINE_MAX && 0 < cols <= width
    ensures !NothingDropped([LF] + word, line, width)
  {
    assert AfterBreak([LF] + word) == word;
    WordBounds(word);
    assert word[..|word|] == word;
  }

  /** A row of 64 or more four-byte characters needs more bytes than the buffer has. */
  lemma WideLosesText(prefix: Text, width: nat, n: nat)
    requires |prefix| < PREFIX_MAX && LINE_MAX <= 4 * n && n <= width
    ensures Terminated([LF] + Wide(n)) && |[LF] + Wide(n)| == 4 * n + 1 && !KeepsText(prefix, [LF] + Wide(n), width)
  {
    WideIsOneWord(n);
    LongWordIsDropped(Started(prefix, width), Wide(n), n, width);
    TextIsKeptExactlyWithRoom(prefix, [LF] + Wide(n), width);
  }

  /**
   For a window: word wrap loses nothing of any message a message field can hold just when
   a row of four-byte characters fits the line buffer, that is up to 63 columns.
   */
  lemma TextIsKeptExactlyWhenNarrow(prefix: Text, width: nat)
    requires |prefix| < PREFIX_MAX && width > 0
    ensures (forall text :: |text| < ChatRing.TEXT_MAX && Terminated(text) ==> KeepsText(prefix, text, width))
       <==> 4 * width < LINE_MAX
  {
    if 4 * width < LINE_MAX {
      forall text
        ensures KeepsText(prefix, text, width)
      {
        NarrowKeepsText(prefix, text, width);
      }
    } else {
      var n: nat :| n == LINE_MAX / 4;
      WideLosesText(prefix, width, n);
    }
  }
}
