/** Word wrap breaks a line only where the next word does not fit, and cuts a word only where it must. */
module ChatWrapGreed {
  import opened ChatText
  import opened ChatWrap

  // ----- what a message says and what a row shows -----

  datatype Token = Word(text: Text) | Break

  /** The words and line breaks of a message; a carriage return and a line feed behind it are one break. */
  function Tokens(text: Text): seq<Token>
    decreases |text|
  {
    if text == [] then []
    else if text[0] == CR && |text| > 1 && text[1] == LF then [Break] + Tokens(text[2..])
    else if text[0] == LF || text[0] == CR then [Break] + Tokens(text[1..])
    else if text[0] == SPACE || text[0] == TAB then Tokens(text[1..])
    else WordBounds(text); [Word(text[..WordAt(text).0])] + Tokens(text[WordAt(text).0..])
  }

  /** Text behind a line, if the buffer holds it. */
  function Joined(line: Line, text: Text): Line {
    if |line.bytes| + |text| < LINE_MAX then Line(line.bytes + text, line.cols + Cols(text), line.hasText) else line
  }

  /** A line after words were put on it one by one, with a space between two. */
  function Filled(start: Line, words: seq<Text>): Line {
    if words == [] then start
    else
      var ahead := Filled(start, words[..|words| - 1]);
      Joined(if |words| > 1 then Joined(ahead, [SPACE]) else ahead, words[|words| - 1]).(hasText := true)
  }

  /** Why a row ends: with the message, at a line break, before a word, or in one, of which `rest` is left. */
  datatype Stop = AtEnd | AtBreak | Before(next: Text) | Inside(rest: Text)

  /** The line of row i before its first word. */
  function StartOf(first: Line, width: nat, i: nat): Line {
    if i == 0 then first else Started([], width)
  }

  /**
   The row may end as it does. Before a word: that word, behind a space if the row holds words, needs
   more columns than are left. Inside a word: the row holds nothing else, the word needs more columns than
   are left on a line that has some, and the piece fills the columns or the buffer.
   */
  ghost predicate Justified(start: Line, words: seq<Text>, stop: Stop, width: nat) {
    match stop
    case AtEnd => true
    case AtBreak => true
    case Before(next) =>
      && next != [] && (words == [] ==> start.cols >= width)
      && Filled(start, words).cols + (if words == [] then 0 else 1) + Cols(next) > width
    case Inside(rest) =>
      && |words| == 1 && words[0] != [] && rest != []
      && start.cols < width && Cols(words[0] + rest) == Cols(words[0]) + Cols(rest)
      && start.cols + Cols(words[0]) + Cols(rest) > width
      && (start.cols + Cols(words[0]) == width || |start.bytes| + |words[0]| + CharLen(rest) >= LINE_MAX)
  }

  /** The word that a row leaves to the next one is the next one's first, or begins there. */
  ghost predicate Continued(stop: Stop, words: seq<Text>, next: Stop) {
    var left := match stop case Before(w) => w case Inside(w) => w case _ => [];
    left != [] ==> Begins(left, words, next)
  }

  /** Rows made of words, each ending for a reason. */
  ghost predicate Greedy(first: Line, width: nat, rows: seq<Text>, made: seq<seq<Text>>, stops: seq<Stop>) {
    && |rows| == |made| == |stops| > 0
    && (forall i :: 0 <= i < |rows| ==>
          rows[i] == Filled(StartOf(first, width, i), made[i]).bytes
          && Justified(StartOf(first, width, i), made[i], stops[i], width))
    && (forall i :: 0 <= i < |rows| - 1 ==> Continued(stops[i], made[i + 1], stops[i + 1]))
    && (forall i :: 0 <= i < |rows| ==> (stops[i].AtEnd? <==> i == |rows| - 1))
  }

  function WordTokens(words: seq<Text>): (ts: seq<Token>)
    ensures |ts| == |words|
  {
    seq(|words|, i requires 0 <= i < |words| => Word(words[i]))
  }

  /** A word cut in two is one word. */
  function Glued(a: seq<Token>, b: seq<Token>): seq<Token> {
    if a != [] && b != [] && a[|a| - 1].Word? && b[0].Word?
    then a[..|a| - 1] + [Word(a[|a| - 1].text + b[0].text)] + b[1..]
    else a + b
  }

  /** The message as it is read off the rows. */
  function Read(made: seq<seq<Text>>, stops: seq<Stop>): seq<Token>
    requires |made| == |stops|
  {
    if made == [] then []
    else
      ReadFrom(made[0], stops[0], Read(made[1..], stops[1..]))
  }

  function ReadFrom(words: seq<Text>, stop: Stop, below: seq<Token>): seq<Token> {
    match stop
    case AtBreak => WordTokens(words) + [Break] + below
    case Inside(_) => Glued(WordTokens(words), below)
    case _ => WordTokens(words) + below
  }

  // ----- lines -----

  lemma FilledHasText(start: Line, words: seq<Text>)
    requires !start.hasText
    ensures Filled(start, words).hasText <==> words != []
  {
  }

  lemma FilledSnoc(start: Line, words: seq<Text>, word: Text)
    requires !start.hasText
    ensures Filled(start, words + [word]) == WithWord(Filled(start, words), word, Cols(word))
  {
    hide CharLen;
    FilledHasText(start, words);
    assert (words + [word])[..|words|] == words;
    assert Cols([SPACE]) == 1 + Cols([]);
  }

  lemma {:induction false} TakeStops(t: Text, maxCols: nat, maxBytes: nat)
    ensures var r := Take(t, maxCols, maxBytes);
      r.0 < |t| ==> r.1 == maxCols || r.0 + CharLen(t[r.0..]) > maxBytes
  {
    hide CharLen;
    if t != [] && maxCols > 0 && CharLen(t) <= maxBytes {
      var n := CharLen(t);
      var r := Take(t[n..], maxCols - 1, maxBytes - n);
      assert Take(t, maxCols, maxBytes) == (n + r.0, 1 + r.1);
      TakeStops(t[n..], maxCols - 1, maxBytes - n);
      assert t[n..][r.0..] == t[n + r.0..];
    } else {
      assert t[0..] == t;
    }
  }

  lemma CutCounts(line: Line, word: Text, cols: nat, width: nat)
    requires width > 0 && Open(line) && cols == Cols(word) && cols > 0 && !WordFits(line, cols, width)
    requires !line.hasText && RoomIn(line, width) > 0
    ensures var n := Cut(line, word, width);
      && 0 < n.0 <= |word| && 0 < n.1 < cols && Cols(word[..n.0]) == n.1 && Cols(word[n.0..]) == cols - n.1
      && line.cols + n.1 <= width && |line.bytes| + n.0 < LINE_MAX
  {
    hide CharLen;
    CutProgresses(line, word, RoomIn(line, width));
    TakeCols(word, RoomIn(line, width), LINE_MAX - |line.bytes| - 1);
  }

  lemma CutStops(line: Line, word: Text, width: nat)
    requires Open(line) && !line.hasText && line.cols < width
    ensures var n := Cut(line, word, width);
      n.0 < |word| ==> line.cols + n.1 == width || |line.bytes| + n.0 + CharLen(word[n.0..]) >= LINE_MAX
  {
    hide CharLen, Take;
    TakeStops(word, RoomIn(line, width), LINE_MAX - |line.bytes| - 1);
  }

  lemma InsideIsJustified(start: Line, piece: Text, rest: Text, width: nat)
    requires piece != [] && rest != [] && start.cols < width && Cols(piece + rest) == Cols(piece) + Cols(rest)
    requires start.cols + Cols(piece) + Cols(rest) > width
    requires start.cols + Cols(piece) == width || |start.bytes| + |piece| + CharLen(rest) >= LINE_MAX
    ensures Justified(start, [piece], Inside(rest), width)
  {
  }

  /** The piece of a word that is cut goes on the line like a word, and fills it. */
  lemma CutFills(line: Line, word: Text, cols: nat, width: nat)
    requires width > 0 && Open(line) && cols == Cols(word) && cols > 0 && !WordFits(line, cols, width)
    requires !line.hasText && RoomIn(line, width) > 0
    ensures var n := Cut(line, word, width);
      && 0 < n.0 < |word| && 0 < n.1 < cols && Cols(word[..n.0]) == n.1 && Cols(word[n.0..]) == cols - n.1
      && Filled(line, [word[..n.0]]).bytes == line.bytes + word[..n.0]
      && Justified(line, [word[..n.0]], Inside(word[n.0..]), width)
  {
    hide Cols, Take, CharLen, Justified, Cut;
    var n := Cut(line, word, width);
    CutCounts(line, word, cols, width);
    CutStops(line, word, width);
    CharsHaveColumns(word[n.0..]);
    assert word[..n.0] + word[n.0..] == word;
    InsideIsJustified(line, word[..n.0], word[n.0..], width);
  }

  lemma Reading(made: seq<seq<Text>>, stops: seq<Stop>, before: seq<Token>, word: Text)
    requires |made| == |stops| && Read(made, stops) == before + [Word(word)]
    ensures Reads(made, stops, before, word)
  {
  }

  // ----- one word -----

  /** The pieces a word is placed in, behind the words already on the line. */
  ghost predicate PlacedGreedily(p: Placed, start: Line, before: seq<Text>, word: Text, width: nat,
                                 made: seq<seq<Text>>, stops: seq<Stop>)
  {
    && |made| == |stops| == |p.rows| + 1
    && Greedy(start, width, p.rows + [p.line.bytes], made, stops)
    && EndsOn(p, start, width, made, stops)
    && Opens(start, before, word, width, made[0], stops[0])
    && Reads(made, stops, WordTokens(before), word)
  }

  ghost predicate Reads(made: seq<seq<Text>>, stops: seq<Stop>, before: seq<Token>, word: Text)
    requires |made| == |stops|
  {
    Read(made, stops) == before + [Word(word)]
  }

  /** The last row is the line the word ended on. */
  ghost predicate EndsOn(p: Placed, start: Line, width: nat, made: seq<seq<Text>>, stops: seq<Stop>)
    requires |made| == |stops| == |p.rows| + 1
  {
    && p.line == Filled(StartOf(start, width, |p.rows|), made[|p.rows|]) && made[|p.rows|] != []
    && (forall i :: 0 <= i < |p.rows| ==> !stops[i].AtBreak?)
  }

  /** The first row holds what was on the line before. */
  ghost predicate Opens(start: Line, before: seq<Text>, word: Text, width: nat, words: seq<Text>, stop: Stop) {
    && before <= words && (before != [] ==> !stop.Inside?)
    && (before == [] && start.cols < width ==> Begins(word, words, stop))
  }

  /** The word is the row's first, or begins there. */
  ghost predicate Begins(word: Text, words: seq<Text>, stop: Stop) {
    words != [] && word == words[0] + (if stop.Inside? then stop.rest else [])
  }

  lemma PlaceWhole(start: Line, before: seq<Text>, word: Text, width: nat)
    returns (made: seq<seq<Text>>, stops: seq<Stop>)
    requires width > 0 && !start.hasText && Open(Filled(start, before)) && Cols(word) > 0
    requires WordFits(Filled(start, before), Cols(word), width)
    ensures PlacedGreedily(Place(Filled(start, before), word, Cols(word), width), start, before, word, width,
                           made, stops)
  {
    made, stops := [before + [word]], [AtEnd];
    FilledSnoc(start, before, word);
    assert WordTokens(before + [word]) == WordTokens(before) + [Word(word)];
    assert Read(made, stops) == WordTokens(before + [word]) + [];
  }

  /** A row that ends before or in a word, above the rows of what is left of it. */
  lemma RowAbove(start: Line, width: nat, row: Text, words: seq<Text>, stop: Stop, rows: seq<Text>,
                 made: seq<seq<Text>>, stops: seq<Stop>)
    requires Greedy(Started([], width), width, rows, made, stops)
    requires row == Filled(start, words).bytes && Justified(start, words, stop, width) && !stop.AtEnd?
    requires Continued(stop, made[0], stops[0])
    ensures Greedy(start, width, [row] + rows, [words] + made, [stop] + stops)
  {
    hide Filled, Justified, Continued;
    var r, m, s := [row] + rows, [words] + made, [stop] + stops;
    forall i | 0 <= i < |r|
      ensures r[i] == Filled(StartOf(start, width, i), m[i]).bytes
      ensures Justified(StartOf(start, width, i), m[i], s[i], width)
    {
      if i > 0 {
        assert StartOf(Started([], width), width, i - 1) == StartOf(start, width, i);
      }
    }
    forall i | 0 <= i < |r| - 1
      ensures Continued(s[i], m[i + 1], s[i + 1])
    {
      if i > 0 {
        assert Continued(stops[i - 1], made[i - 1 + 1], stops[i - 1 + 1]);
      }
    }
  }

  lemma {:induction false} PlaceIsGreedy(start: Line, before: seq<Text>, word: Text, width: nat)
    returns (made: seq<seq<Text>>, stops: seq<Stop>)
    requires width > 0 && Open(start) && !start.hasText && Open(Filled(start, before)) && Cols(word) > 0
    ensures PlacedGreedily(Place(Filled(start, before), word, Cols(word), width), start, before, word, width,
                           made, stops)
    decreases Cols(word), before != [] || RoomIn(Filled(start, before), width) == 0
  {
    var line := Filled(start, before);
    FilledHasText(start, before);
    if WordFits(line, Cols(word), width) {
      made, stops := PlaceWhole(start, before, word, width);
    } else if before == [] && RoomIn(line, width) > 0 {
      CutFills(line, word, Cols(word), width);
      var n := Cut(line, word, width);
      made, stops := PlaceIsGreedy(Started([], width), [], word[n.0..], width);
      CutAbove(start, word, width, made, stops);
      made, stops := [[word[..n.0]]] + made, [Inside(word[n.0..])] + stops;
    } else {
      made, stops := PlaceIsGreedy(Started([], width), [], word, width);
      FullAbove(start, before, word, width, made, stops);
      made, stops := [before] + made, [Before(word)] + stops;
    }
  }

  /** The row leaves `left` to the next one. */
  predicate Leaves(stop: Stop, left: Text) {
    (stop.Before? && stop.next == left) || (stop.Inside? && stop.rest == left)
  }

  /** One more row above those of the rest of a word. */
  lemma PlacedAbove(rest: Placed, start: Line, width: nat, row: Text, words: seq<Text>, stop: Stop, before: seq<Text>,
                    word: Text, left: Text, made: seq<seq<Text>>, stops: seq<Stop>)
    requires width > 0 && |made| == |stops| == |rest.rows| + 1
    requires Greedy(Started([], width), width, rest.rows + [rest.line.bytes], made, stops)
    requires EndsOn(rest, Started([], width), width, made, stops)
    requires row == Filled(start, words).bytes && Justified(start, words, stop, width) && Leaves(stop, left)
    requires before <= words && (before != [] ==> !stop.Inside?)
    requires before == [] && start.cols < width ==> Begins(word, words, stop)
    requires Begins(left, made[0], stops[0])
    requires Reads([words] + made, [stop] + stops, WordTokens(before), word)
    ensures PlacedGreedily(Placed([row] + rest.rows, rest.line), start, before, word, width,
                           [words] + made, [stop] + stops)
  {
    hide Filled, Justified, Reads, Begins, Greedy, WordTokens, Take, Opens;
    EndsOnBelow(rest, start, width, row, words, stop, made, stops);
    hide EndsOn;
    StackRow(rest, start, width, row, words, stop, left, made, stops);
    FirstRow(start, before, word, width, words, stop);
  }

  lemma FirstRow(start: Line, before: seq<Text>, word: Text, width: nat, words: seq<Text>, stop: Stop)
    requires before <= words && (before != [] ==> !stop.Inside?)
    requires before == [] && start.cols < width ==> Begins(word, words, stop)
    ensures Opens(start, before, word, width, words, stop)
  {
  }

  lemma EndsOnBelow(rest: Placed, start: Line, width: nat, row: Text, words: seq<Text>, stop: Stop,
                    made: seq<seq<Text>>, stops: seq<Stop>)
    requires |made| == |stops| == |rest.rows| + 1 && !stop.AtBreak?
    requires EndsOn(rest, Started([], width), width, made, stops)
    ensures EndsOn(Placed([row] + rest.rows, rest.line), start, width, [words] + made, [stop] + stops)
  {
    hide Filled;
    LastRow(rest, row, words, stop, made, stops);
    StartOfLast(start, width, |rest.rows|);
  }

  lemma LastRow(rest: Placed, row: Text, words: seq<Text>, stop: Stop, made: seq<seq<Text>>, stops: seq<Stop>)
    requires |made| == |stops| == |rest.rows| + 1 && !stop.AtBreak?
    requires forall i :: 0 <= i < |rest.rows| ==> !stops[i].AtBreak?
    ensures |[row] + rest.rows| == |rest.rows| + 1 && ([words] + made)[|rest.rows| + 1] == made[|rest.rows|]
    ensures forall i :: 0 <= i < |rest.rows| + 1 ==> !([stop] + stops)[i].AtBreak?
  {
  }

  lemma StartOfLast(start: Line, width: nat, n: nat)
    ensures StartOf(start, width, n + 1) == Started([], width) == StartOf(Started([], width), width, n)
  {
  }

  lemma StackRow(rest: Placed, start: Line, width: nat, row: Text, words: seq<Text>, stop: Stop, left: Text,
                 made: seq<seq<Text>>, stops: seq<Stop>)
    requires Greedy(Started([], width), width, rest.rows + [rest.line.bytes], made, stops)
    requires row == Filled(start, words).bytes && Justified(start, words, stop, width)
    requires Leaves(stop, left) && Begins(left, made[0], stops[0])
    ensures Greedy(start, width, [row] + rest.rows + [rest.line.bytes], [words] + made, [stop] + stops)
  {
    RowAbove(start, width, row, words, stop, rest.rows + [rest.line.bytes], made, stops);
    assert [row] + (rest.rows + [rest.line.bytes]) == [row] + rest.rows + [rest.line.bytes];
  }

  lemma ReadAbove(words: seq<Text>, stop: Stop, made: seq<seq<Text>>, stops: seq<Stop>)
    requires |made| == |stops|
    ensures Read([words] + made, [stop] + stops) == ReadFrom(words, stop, Read(made, stops))
  {
    assert ([words] + made)[1..] == made && ([stop] + stops)[1..] == stops;
  }

  lemma CutAbove(start: Line, word: Text, width: nat, made: seq<seq<Text>>, stops: seq<Stop>)
    requires width > 0 && Open(start) && !start.hasText && Cols(word) > 0
    requires !WordFits(start, Cols(word), width) && RoomIn(start, width) > 0
    requires var n := Cut(start, word, width);
      && n.0 <= |word| && Cols(word[n.0..]) > 0
      && PlacedGreedily(Place(Started([], width), word[n.0..], Cols(word[n.0..]), width), Started([], width), [],
                        word[n.0..], width, made, stops)
    ensures var n := Cut(start, word, width);
      PlacedGreedily(Place(start, word, Cols(word), width), start, [], word, width,
                     [[word[..n.0]]] + made, [Inside(word[n.0..])] + stops)
  {
    hide Take, CharLen, Place, Cut, Cols, PlacedGreedily, Justified, WordFits, Reads, Filled;
    CutFills(start, word, Cols(word), width);
    var n := Cut(start, word, width);
    var piece, left := word[..n.0], word[n.0..];
    var rest := Place(Started([], width), left, Cols(left), width);
    PlacedCut(start, word, width);
    CutReads(rest, word, piece, left, width, made, stops);
    PlacedAbove(rest, start, width, start.bytes + piece, [piece], Inside(left), [], word, left, made, stops);
  }

  lemma CutReads(rest: Placed, word: Text, piece: Text, left: Text, width: nat, made: seq<seq<Text>>,
                 stops: seq<Stop>)
    requires width > 0 && piece + left == word
    requires PlacedGreedily(rest, Started([], width), [], left, width, made, stops)
    ensures |made| == |stops| == |rest.rows| + 1 && Begins(left, made[0], stops[0])
    ensures Greedy(Started([], width), width, rest.rows + [rest.line.bytes], made, stops)
    ensures EndsOn(rest, Started([], width), width, made, stops)
    ensures Reads([[piece]] + made, [Inside(left)] + stops, WordTokens([]), word)
  {
    hide Greedy, EndsOn, PlacedGreedily;
    ReadOf(rest, Started([], width), [], left, width, made, stops);
    FreshLines(width);
    ReadAbove([piece], Inside(left), made, stops);
    PiecesRead(piece, left);
  }

  lemma PiecesRead(piece: Text, left: Text)
    ensures Glued(WordTokens([piece]), WordTokens([]) + [Word(left)]) == WordTokens([]) + [Word(piece + left)]
  {
    assert WordTokens([piece]) == [Word(piece)] && WordTokens([]) + [Word(left)] == [Word(left)];
  }

  lemma PlacedCut(start: Line, word: Text, width: nat)
    requires width > 0 && Open(start) && !start.hasText && Cols(word) > 0
    requires !WordFits(start, Cols(word), width) && RoomIn(start, width) > 0
    ensures var n := Cut(start, word, width);
      && n.0 <= |word|
      && var rest := Place(Started([], width), word[n.0..], Cols(word[n.0..]), width);
         Place(start, word, Cols(word), width) == Placed([start.bytes + word[..n.0]] + rest.rows, rest.line)
  {
    hide Take, CharLen, Place, Cols;
    var p := Place(start, word, Cols(word), width);
    PlacedInPart(p, [], start, [], word, Cols(word), width);
    CutCounts(start, word, Cols(word), width);
    assert [] + p.rows == p.rows;
  }

  lemma ReadOf(p: Placed, start: Line, before: seq<Text>, word: Text, width: nat, made: seq<seq<Text>>,
               stops: seq<Stop>)
    requires PlacedGreedily(p, start, before, word, width, made, stops)
    ensures |made| == |stops| == |p.rows| + 1 && Read(made, stops) == WordTokens(before) + [Word(word)]
    ensures Greedy(start, width, p.rows + [p.line.bytes], made, stops) && EndsOn(p, start, width, made, stops)
    ensures before == [] && start.cols < width ==> Begins(word, made[0], stops[0])
  {
    hide Greedy, EndsOn, Read;
  }

  lemma FreshLines(width: nat)
    ensures Started([], width).cols == 0
  {
  }

  lemma FullAbove(start: Line, before: seq<Text>, word: Text, width: nat, made: seq<seq<Text>>, stops: seq<Stop>)
    requires width > 0 && Open(start) && !start.hasText && Open(Filled(start, before)) && Cols(word) > 0
    requires !WordFits(Filled(start, before), Cols(word), width)
    requires before != [] || RoomIn(Filled(start, before), width) == 0
    requires PlacedGreedily(Place(Started([], width), word, Cols(word), width), Started([], width), [], word, width,
                            made, stops)
    ensures PlacedGreedily(Place(Filled(start, before), word, Cols(word), width), start, before, word, width,
                           [before] + made, [Before(word)] + stops)
  {
    hide Cols, PlacedGreedily, Reads, Filled, WordTokens, Started, Take;
    FilledHasText(start, before);
    var line := Filled(start, before);
    var rest := Place(Started([], width), word, Cols(word), width);
    assert Place(line, word, Cols(word), width) == Placed([line.bytes] + rest.rows, rest.line);
    hide Place;
    FullJustified(start, before, word, width);
    FullReads(rest, before, word, width, made, stops);
    PlacedAbove(rest, start, width, line.bytes, before, Before(word), before, word, word, made, stops);
  }

  lemma FullJustified(start: Line, before: seq<Text>, word: Text, width: nat)
    requires width > 0 && !start.hasText && Cols(word) > 0 && !WordFits(Filled(start, before), Cols(word), width)
    requires before != [] || RoomIn(Filled(start, before), width) == 0
    ensures Justified(start, before, Before(word), width) && (before == [] ==> start.cols >= width)
  {
    hide CharLen;
    FilledHasText(start, before);
    assert Cols([]) == 0;
  }

  lemma FullReads(rest: Placed, before: seq<Text>, word: Text, width: nat, made: seq<seq<Text>>, stops: seq<Stop>)
    requires width > 0
    requires PlacedGreedily(rest, Started([], width), [], word, width, made, stops)
    ensures |made| == |stops| == |rest.rows| + 1 && Begins(word, made[0], stops[0])
    ensures Greedy(Started([], width), width, rest.rows + [rest.line.bytes], made, stops)
    ensures EndsOn(rest, Started([], width), width, made, stops)
    ensures Reads([before] + made, [Before(word)] + stops, WordTokens(before), word)
  {
    hide Greedy, EndsOn, PlacedGreedily;
    ReadOf(rest, Started([], width), [], word, width, made, stops);
    FreshLines(width);
    ReadAbove(before, Before(word), made, stops);
    NoTokens([Word(word)]);
  }

  // ----- a whole message -----

  /** What the rows from a line on hold, when `before` is on it already. */
  ghost predicate WrappedGreedily(rows: seq<Text>, start: Line, before: seq<Text>, ahead: seq<Token>, width: nat,
                                  made: seq<seq<Text>>, stops: seq<Stop>)
  {
    && |made| == |stops| == |rows| && Greedy(start, width, rows, made, stops)
    && before <= made[0] && (before != [] ==> !stops[0].Inside?)
    && Read(made, stops) == WordTokens(before) + ahead
  }

  lemma {:induction false} WrapIsGreedyFrom(text: Text, start: Line, before: seq<Text>, width: nat)
    returns (made: seq<seq<Text>>, stops: seq<Stop>)
    requires width > 0 && Open(start) && !start.hasText && Open(Filled(start, before))
    ensures WrappedGreedily(WrapFrom(text, Filled(start, before), width), start, before, Tokens(text), width,
                            made, stops)
    decreases |text|
  {
    hide WrappedGreedily, PlacedGreedily, Open, Filled, Place, WordAt;
    var line := Filled(start, before);
    if text == [] {
      made, stops := [before], [AtEnd];
      EndIsGreedy(start, before, width);
    } else if text[0] == LF || text[0] == CR {
      FreshIsOpen(width);
      made, stops := WrapIsGreedyFrom(AfterBreak(text), Started([], width), [], width);
      BreakAbove(WrapFrom(AfterBreak(text), Started([], width), width), start, before, Tokens(AfterBreak(text)),
                 width, made, stops);
      made, stops := [before] + made, [AtBreak] + stops;
    } else if text[0] == SPACE || text[0] == TAB {
      made, stops := WrapIsGreedyFrom(text[1..], start, before, width);
    } else {
      made, stops := WordThenRest(text, start, before, width);
    }
  }

  lemma {:induction false} WordThenRest(text: Text, start: Line, before: seq<Text>, width: nat)
    returns (made: seq<seq<Text>>, stops: seq<Stop>)
    requires width > 0 && Open(start) && !start.hasText && Open(Filled(start, before))
    requires text != [] && !Blank(text[0])
    ensures WrappedGreedily(WrapFrom(text, Filled(start, before), width), start, before, Tokens(text), width,
                            made, stops)
    decreases |text|, 0
  {
    hide WrappedGreedily, PlacedGreedily, Open, Filled, Place, WordAt;
    WordBounds(text);
    var n := WordAt(text).0;
    var word, rest := text[..n], text[n..];
    var p := Place(Filled(start, before), word, Cols(word), width);
    var above, ends := PlaceIsGreedy(start, before, word, width);
    LastLine(p, start, before, word, width, above, ends);
    var from := StartOf(start, width, |p.rows|);
    made, stops := WrapIsGreedyFrom(rest, from, above[|p.rows|], width);
    RestBelow(p, WrapFrom(rest, p.line, width), start, before, word, Tokens(rest), width, above, ends, made, stops);
    made, stops := above[..|p.rows|] + made, ends[..|p.rows|] + stops;
  }

  lemma EndIsGreedy(start: Line, before: seq<Text>, width: nat)
    ensures WrappedGreedily([Filled(start, before).bytes], start, before, [], width, [before], [AtEnd])
  {
    hide Filled;
    assert Read([before], [AtEnd]) == WordTokens(before) + [];
  }

  lemma FreshIsOpen(width: nat)
    ensures Open(Started([], width)) && !Started([], width).hasText
    ensures Filled(Started([], width), []) == Started([], width)
  {
  }

  lemma NoTokens(ahead: seq<Token>)
    ensures WordTokens([]) + ahead == ahead
  {
  }

  lemma BreakAbove(rows: seq<Text>, start: Line, before: seq<Text>, ahead: seq<Token>, width: nat,
                   made: seq<seq<Text>>, stops: seq<Stop>)
    requires WrappedGreedily(rows, Started([], width), [], ahead, width, made, stops)
    ensures WrappedGreedily([Filled(start, before).bytes] + rows, start, before, [Break] + ahead, width,
                            [before] + made, [AtBreak] + stops)
  {
    hide Filled, Greedy, Read;
    RowAbove(start, width, Filled(start, before).bytes, before, AtBreak, rows, made, stops);
    ReadAbove(before, AtBreak, made, stops);
    assert Read([before] + made, [AtBreak] + stops) == WordTokens(before) + ([Break] + ahead) by {
      hide WordTokens;
      NoTokens(ahead);
      assert WordTokens(before) + [Break] + ahead == WordTokens(before) + ([Break] + ahead);
    }
  }

  lemma LastLine(p: Placed, start: Line, before: seq<Text>, word: Text, width: nat, made: seq<seq<Text>>,
                 stops: seq<Stop>)
    requires width > 0 && Open(start) && !start.hasText && Open(p.line)
    requires PlacedGreedily(p, start, before, word, width, made, stops)
    ensures |made| == |stops| == |p.rows| + 1 && made[|p.rows|] != []
    ensures var from := StartOf(start, width, |p.rows|);
      Open(from) && !from.hasText && p.line == Filled(from, made[|p.rows|])
  {
    hide Filled, Greedy, Opens, Reads;
    FreshIsOpen(width);
  }

  lemma GluedGrows(a: seq<Token>, b: seq<Token>, ahead: seq<Token>)
    requires b != []
    ensures Glued(a, b) != [] && Glued(a, b + ahead) == Glued(a, b) + ahead
  {
    assert (b + ahead)[0] == b[0];
    if a != [] && a[|a| - 1].Word? && b[0].Word? {
      var seam := a[..|a| - 1] + [Word(a[|a| - 1].text + b[0].text)];
      assert Glued(a, b) == seam + b[1..] && Glued(a, b + ahead) == seam + (b + ahead)[1..];
      hide Glued;
      assert (b + ahead)[1..] == b[1..] + ahead;
      Regroup(seam, b[1..], ahead);
    } else {
      Regroup(a, b, ahead);
    }
  }

  lemma Regroup<T>(a: seq<T>, b: seq<T>, c: seq<T>)
    ensures a + (b + c) == a + b + c
  {
  }

  lemma HeadGrows(words: seq<Text>, stop: Stop, below: seq<Token>, ahead: seq<Token>)
    requires below != []
    ensures ReadFrom(words, stop, below) != []
    ensures ReadFrom(words, stop, below + ahead) == ReadFrom(words, stop, below) + ahead
  {
    hide Glued, WordTokens;
    var here := WordTokens(words);
    GluedGrows(here, below, ahead);
    Regroup(here, below, ahead);
    Regroup(here + [Break], below, ahead);
  }

  /** What is read when the last row is replaced by rows that read on from its words. */
  lemma {:induction false} ReadOn(n: nat, above: seq<seq<Text>>, ends: seq<Stop>, made: seq<seq<Text>>,
                                  stops: seq<Stop>, ahead: seq<Token>)
    requires |above| == |ends| == n + 1 && |made| == |stops|
    requires ends[n].AtEnd? && above[n] != []
    requires Read(made, stops) == WordTokens(above[n]) + ahead
    ensures Read(above, ends) != []
    ensures Read(above[..n] + made, ends[..n] + stops) == Read(above, ends) + ahead
  {
    hide Glued, WordTokens;
    if n == 0 {
      assert above[1..] == [] && Read(above, ends) == WordTokens(above[0]) + [];
      assert above[..0] + made == made && ends[..0] + stops == stops;
    } else {
      ReadOn(n - 1, above[1..], ends[1..], made, stops, ahead);
      ReadHead(above, ends);
      NextAbove(n, above, made);
      NextAbove(n, ends, stops);
      ReadHead(above[..n] + made, ends[..n] + stops);
      hide Read;
      HeadGrows(above[0], ends[0], Read(above[1..], ends[1..]), ahead);
    }
  }

  lemma NextAbove<T>(n: nat, above: seq<T>, below: seq<T>)
    requires |above| == n + 1 && n > 0
    ensures (above[..n] + below)[1..] == above[1..][..n - 1] + below && (above[..n] + below)[0] == above[0]
    ensures above[1..][n - 1] == above[n]
  {
  }

  lemma ReadHead(made: seq<seq<Text>>, stops: seq<Stop>)
    requires |made| == |stops| > 0
    ensures Read(made, stops) == ReadFrom(made[0], stops[0], Read(made[1..], stops[1..]))
  {
  }

  /** Rows whose last is replaced by rows that begin with its words. */
  lemma GreedyOn(n: nat, upper: seq<Text>, lower: seq<Text>, start: Line, width: nat, above: seq<seq<Text>>,
                 ends: seq<Stop>, made: seq<seq<Text>>, stops: seq<Stop>)
    requires |upper| == n + 1 && Greedy(start, width, upper, above, ends) && ends[n].AtEnd?
    requires Greedy(StartOf(start, width, n), width, lower, made, stops)
    requires above[n] <= made[0] && above[n] != [] && !stops[0].Inside?
    ensures Greedy(start, width, upper[..n] + lower, above[..n] + made, ends[..n] + stops)
  {
    hide Filled, Justified;
    var r, m, s := upper[..n] + lower, above[..n] + made, ends[..n] + stops;
    forall i | 0 <= i < |r|
      ensures r[i] == Filled(StartOf(start, width, i), m[i]).bytes
      ensures Justified(StartOf(start, width, i), m[i], s[i], width)
      ensures s[i].AtEnd? <==> i == |r| - 1
    {
      if i >= n {
        assert StartOf(StartOf(start, width, n), width, i - n) == StartOf(start, width, i);
      }
    }
    forall i | 0 <= i < |r| - 1
      ensures Continued(s[i], m[i + 1], s[i + 1])
    {
      if i >= n {
        assert Continued(stops[i - n], made[i - n + 1], stops[i - n + 1]);
      } else {
        assert Continued(ends[i], above[i + 1], ends[i + 1]);
      }
    }
  }

  lemma RestBelow(p: Placed, rows: seq<Text>, start: Line, before: seq<Text>, word: Text, ahead: seq<Token>,
                  width: nat, above: seq<seq<Text>>, ends: seq<Stop>, made: seq<seq<Text>>, stops: seq<Stop>)
    requires PlacedGreedily(p, start, before, word, width, above, ends)
    requires WrappedGreedily(rows, StartOf(start, width, |p.rows|), above[|p.rows|], ahead, width, made, stops)
    ensures WrappedGreedily(p.rows + rows, start, before, [Word(word)] + ahead, width, above[..|p.rows|] + made,
                            ends[..|p.rows|] + stops)
  {
    hide Filled, Justified, Read, Take, CharLen, Cols, WordTokens;
    var n := |p.rows|;
    assert ends[n].AtEnd?;
    hide Greedy, StartOf;
    ReadOn(n, above, ends, made, stops, ahead);
    assert WordTokens(before) + [Word(word)] + ahead == WordTokens(before) + ([Word(word)] + ahead);
    assert (p.rows + [p.line.bytes])[..n] == p.rows;
    GreedyOn(n, p.rows + [p.line.bytes], rows, start, width, above, ends, made, stops);
  }

  /**
   The rows of a message: each is filled with words, one space apart, until the message or its line ends, or
   until the next word is too wide for what is left; and the words and breaks are those of the message. The
   first row starts with the prefix, or with as much of it as the width takes.
   */
  lemma WrapIsGreedy(prefix: Text, text: Text, width: nat) returns (made: seq<seq<Text>>, stops: seq<Stop>)
    requires |prefix| < PREFIX_MAX && width > 0
    ensures Greedy(Started(prefix, width), width, Wrapped(prefix, text, width), made, stops)
    ensures Read(made, stops) == Tokens(text)
    ensures var start := Started(prefix, width);
      && start.bytes <= prefix && start.cols == Cols(start.bytes) <= width && !start.hasText
      && (start.cols < width ==> start.bytes == prefix)
  {
    hide Greedy, Read, WrapFrom;
    made, stops := WrapIsGreedyFrom(text, Started(prefix, width), [], width);
    assert WordTokens([]) + Tokens(text) == Tokens(text);
    TakeStops(prefix, width, LINE_MAX - 1);
    TakeCols(prefix, width, LINE_MAX - 1);
  }
}
