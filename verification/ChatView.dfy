/** The rows of a conversation, counted in one pass and drawn in another. */
module ChatView {
  import opened Wrappers
  import opened ChatText
  import opened ChatWrap
  import opened ChatRing
  import T = ChatWrapTheorems

  // ----- prefixes -----

  const COLON: Byte := 58
  const TILDE: Byte := 126

  /** A string field of a message holds at most its size less the terminator. */
  predicate Fields(m: Message) {
    |m.from| < FROM_MAX
  }

  /** chat_make_user_prefix: the name, cut with a tilde when the window is too narrow for it. */
  function UserPrefix(from: Text, width: nat): (p: (Text, nat))
    requires |from| < FROM_MAX
    ensures |p.0| <= FROM_MAX + 2 && p.1 <= |p.0|
  {
    if from == [] || width == 0 then ([], 0)
    else if Cols(from) + 2 <= width then (from + [COLON, SPACE], |from|)
    else
      var name := Take(from, if width > 3 then width - 3 else 1, FROM_MAX - 1);
      (from[..name.0] + [TILDE, COLON, SPACE], name.0 + 1)
  }

  /** What is shown of a name: all of it if it fits with a colon and a blank, else what fits with a tilde too. */
  ghost predicate NameShown(shown: Text, from: Text, width: nat) {
    if Cols(from) + 2 <= width then shown == from
    else shown != [] && shown[|shown| - 1] == 126 && NameCut(shown[..|shown| - 1], from, width)
  }

  ghost predicate NameCut(name: Text, from: Text, width: nat) {
    name <= from && Cols(name) == if width > 3 then width - 3 else 1
  }

  lemma CutNameIsShown(name: Text, from: Text, width: nat)
    requires Cols(from) + 2 > width && NameCut(name, from, width)
    ensures NameShown(name + [126], from, width)
  {
    hide Cols;
    assert (name + [126])[..|name|] == name;
  }

  /**
   A name is shown in full if it fits the window with a colon and a blank. Otherwise it is cut, at the end of a
   character, and a tilde says so. All of it but the colon and the blank is emphasised.
   */
  lemma NamesAreCutToFit(from: Text, width: nat) returns (shown: Text)
    requires from != [] && |from| < FROM_MAX && width > 0
    ensures UserPrefix(from, width) == (shown + [58, 32], |shown|) && NameShown(shown, from, width)
  {
    hide Cols, Take, NameCut;
    if Cols(from) + 2 <= width {
      shown := from;
    } else {
      shown := from[..Take(from, if width > 3 then width - 3 else 1, FROM_MAX - 1).0] + [TILDE];
      NameIsCut(from, width);
      CutNameIsShown(shown[..|shown| - 1], from, width);
      assert shown + [COLON, SPACE] == shown[..|shown| - 1] + [TILDE, COLON, SPACE];
    }
  }

  lemma NameIsCut(from: Text, width: nat)
    requires from != [] && |from| < FROM_MAX && Cols(from) + 2 > width > 0
    ensures NameCut(from[..Take(from, if width > 3 then width - 3 else 1, FROM_MAX - 1).0], from, width)
  {
    hide Cols, Take;
    var cols := if width > 3 then width - 3 else 1;
    CharsHaveColumns(from);
    TakeWithRoom(from, cols, FROM_MAX - 1);
    TakeCols(from, cols, FROM_MAX - 1);
  }

  function DeliveryMark(d: Delivery): Byte {
    match d
    case Queued => 113
    case Sending => 62
    case Sent => 115
    case Delivered => 100
    case Failed => 33
    case Cancelled => 120
    case Received => 45
  }

  /** chat_message_prefixes: the prefix and how much of it is emphasised. */
  function Prefix(m: Message, width: nat): (p: (Text, nat))
    requires Fields(m)
    ensures |p.0| < PREFIX_MAX && p.1 <= |p.0|
  {
    if m.system then ([if m.kind == Kind.Error then 33 else 42, SPACE], 0)
    else
      var actor := UserPrefix(m.from, width);
      if m.outbound
      then ([91, DeliveryMark(m.delivery), if m.encrypted then 43 else 45, 93, SPACE] + actor.0, 0)
      else actor
  }

  // ----- the rows of a conversation -----

  function MessageRows(m: Message, width: nat): seq<Row>
    requires Fields(m)
  {
    Marked(Wrapped(Prefix(m, width).0, m.text, width), Prefix(m, width).1)
  }

  /** An empty row where the sender changes. */
  function Gap(m: Message, previous: Option<Text>): seq<Row> {
    if !m.system && previous.Some? && previous.value != m.from then [Row([], 0)] else []
  }

  function SenderAfter(m: Message, previous: Option<Text>): Option<Text> {
    if m.system then previous else Some(m.from)
  }

  /** Rows of the messages that belong to the conversation shown. */
  function RowsFrom(ms: seq<Message>, shown: Message -> bool, width: nat, previous: Option<Text>): seq<Row>
    requires forall m :: m in ms ==> Fields(m)
    decreases |ms|
  {
    if ms == [] then []
    else if !shown(ms[0]) then RowsFrom(ms[1..], shown, width, previous)
    else Gap(ms[0], previous) + MessageRows(ms[0], width)
         + RowsFrom(ms[1..], shown, width, SenderAfter(ms[0], previous))
  }

  function VisualRows(ms: seq<Message>, shown: Message -> bool, width: nat): seq<Row>
    requires forall m :: m in ms ==> Fields(m)
  {
    if width == 0 then [] else RowsFrom(ms, shown, width, None)
  }

  /** Message j is shown and was sent by somebody. */
  predicate Speaks(ms: seq<Message>, shown: Message -> bool, j: nat) {
    j < |ms| && shown(ms[j]) && !ms[j].system
  }

  /** Message j is the last such. */
  ghost predicate SpokeLast(ms: seq<Message>, shown: Message -> bool, j: nat) {
    Speaks(ms, shown, j) && forall i: nat :: j < i ==> !Speaks(ms, shown, i)
  }

  /** Who spoke last; `previous` before the first. */
  function Speaker(ms: seq<Message>, shown: Message -> bool, previous: Option<Text>): Option<Text> {
    if ms == [] then previous
    else Speaker(ms[1..], shown, if shown(ms[0]) then SenderAfter(ms[0], previous) else previous)
  }

  lemma {:induction false} SpeakerSpokeLast(ms: seq<Message>, shown: Message -> bool, previous: Option<Text>)
    ensures forall j: nat :: SpokeLast(ms, shown, j) ==> Speaker(ms, shown, previous) == Some(ms[j].from)
    ensures (forall j: nat :: !Speaks(ms, shown, j)) ==> Speaker(ms, shown, previous) == previous
  {
    if ms != [] {
      var rest, after := ms[1..], if shown(ms[0]) then SenderAfter(ms[0], previous) else previous;
      SpeakerSpokeLast(rest, shown, after);
      forall j: nat
        ensures Speaks(rest, shown, j) <==> Speaks(ms, shown, j + 1)
      {
      }
      forall j: nat | SpokeLast(ms, shown, j)
        ensures Speaker(ms, shown, previous) == Some(ms[j].from)
      {
        SpeakerOfTheRest(ms, shown, previous, j);
      }
      if forall j: nat :: !Speaks(ms, shown, j) {
        assert !Speaks(ms, shown, 0);
      }
    }
  }

  lemma SpeakerOfTheRest(ms: seq<Message>, shown: Message -> bool, previous: Option<Text>, j: nat)
    requires ms != [] && SpokeLast(ms, shown, j)
    requires var rest, after := ms[1..], if shown(ms[0]) then SenderAfter(ms[0], previous) else previous;
      && (forall i: nat :: SpokeLast(rest, shown, i) ==> Speaker(rest, shown, after) == Some(rest[i].from))
      && ((forall i: nat :: !Speaks(rest, shown, i)) ==> Speaker(rest, shown, after) == after)
    ensures Speaker(ms, shown, previous) == Some(ms[j].from)
  {
    var rest := ms[1..];
    forall i: nat
      ensures Speaks(rest, shown, i) <==> Speaks(ms, shown, i + 1)
    {
    }
    if j > 0 {
      assert SpokeLast(rest, shown, j - 1);
    }
  }

  lemma {:induction false} RowsSnoc(ms: seq<Message>, shown: Message -> bool, width: nat, previous: Option<Text>,
                                    m: Message)
    requires Fields(m) && forall x :: x in ms ==> Fields(x)
    ensures forall x :: x in ms + [m] ==> Fields(x)
    ensures RowsFrom(ms + [m], shown, width, previous)
         == RowsFrom(ms, shown, width, previous)
            + if shown(m) then Gap(m, Speaker(ms, shown, previous)) + MessageRows(m, width) else []
    decreases |ms|
  {
    hide MessageRows, Gap;
    if ms == [] {
      assert [] + [m] == [m] && [m][1..] == [];
    } else {
      assert (ms + [m])[1..] == ms[1..] + [m];
      RowsSnoc(ms[1..], shown, width, if shown(ms[0]) then SenderAfter(ms[0], previous) else previous, m);
    }
  }

  /**
   Every message shown adds its rows behind those before. An empty row comes in between exactly if it was sent by
   somebody, and somebody else was the last to speak before.
   */
  lemma MessagesAddTheirRows(ms: seq<Message>, shown: Message -> bool, width: nat, m: Message)
    requires width > 0 && Fields(m) && forall x :: x in ms ==> Fields(x)
    ensures forall x :: x in ms + [m] ==> Fields(x)
    ensures var changes := !m.system && exists j: nat :: SpokeLast(ms, shown, j) && ms[j].from != m.from;
      VisualRows(ms + [m], shown, width)
      == VisualRows(ms, shown, width)
         + if shown(m) then (if changes then [Row([], 0)] else []) + MessageRows(m, width) else []
  {
    hide MessageRows, RowsFrom;
    RowsSnoc(ms, shown, width, None, m);
    SpeakerSpokeLast(ms, shown, None);
    SomebodySpoke(ms, shown);
  }

  lemma {:induction false} SomebodySpoke(ms: seq<Message>, shown: Message -> bool)
    ensures (forall j: nat :: !Speaks(ms, shown, j)) || exists j: nat :: SpokeLast(ms, shown, j)
  {
    var n := |ms|;
    while n > 0 && !Speaks(ms, shown, n - 1)
      invariant n <= |ms| && forall j: nat :: j >= n ==> !Speaks(ms, shown, j)
    {
      n := n - 1;
    }
    if n > 0 {
      assert SpokeLast(ms, shown, n - 1);
    }
  }

  /** No row that is drawn is wider than the window. */
  lemma {:induction false} VisualRowsFit(ms: seq<Message>, shown: Message -> bool, width: nat, previous: Option<Text>)
    requires forall m :: m in ms ==> Fields(m)
    ensures forall r :: r in RowsFrom(ms, shown, width, previous) ==> T.RowFits(r.text, width)
    decreases |ms|
  {
    if ms != [] {
      T.RowsFit(Prefix(ms[0], width).0, ms[0].text, width);
      assert Cols([]) == 0;
      VisualRowsFit(ms[1..], shown, width, if shown(ms[0]) then SenderAfter(ms[0], previous) else previous);
    }
  }

  /** The rows of the messages to come complete those of the conversation. */
  ghost predicate Emitting(all: seq<Row>, done: seq<Row>, ms: seq<Message>, shown: Message -> bool, width: nat,
                           previous: Option<Text>)
  {
    (forall m :: m in ms ==> Fields(m)) && all == done + RowsFrom(ms, shown, width, previous)
  }

  lemma NextMessage(all: seq<Row>, done: seq<Row>, ms: seq<Message>, shown: Message -> bool, width: nat,
                    previous: Option<Text>)
    requires Emitting(all, done, ms, shown, width, previous) && ms != []
    ensures Fields(ms[0])
    ensures var (m, rest) := (ms[0], ms[1..]);
      if shown(m) then
        Emitting(all, done + (Gap(m, previous) + MessageRows(m, width)), rest, shown, width, SenderAfter(m, previous))
      else Emitting(all, done, rest, shown, width, previous)
  {
    var m, rest := ms[0], ms[1..];
    assert m in ms && forall x :: x in rest ==> x in ms;
    if shown(m) {
      var more := RowsFrom(rest, shown, width, SenderAfter(m, previous));
      assert done + (Gap(m, previous) + MessageRows(m, width) + more)
          == done + (Gap(m, previous) + MessageRows(m, width)) + more;
    }
  }

  /** One message that belongs to the conversation, with the empty row before it if the sender changed. */
  method EmitMessage(m: Message, width: nat, previous: Option<Text>, draw: bool) returns (count: nat, rows: seq<Row>)
    requires Fields(m)
    ensures count == |Gap(m, previous) + MessageRows(m, width)|
    ensures rows == if draw then Gap(m, previous) + MessageRows(m, width) else []
  {
    hide WrapFrom, UserPrefix;
    var gap := Gap(m, previous);
    var prefix := Prefix(m, width);
    var emitted, part := EmitWrapped(prefix.0, prefix.1, m.text, width, draw);
    count := |gap| + emitted;
    rows := if draw then gap + part else [];
  }

  /** chat_emit_visual_rows: without `draw` it counts exactly the rows it emits with it. */
  method EmitVisualRows(ms: seq<Message>, shown: Message -> bool, width: nat, draw: bool)
    returns (count: nat, rows: seq<Row>)
    requires forall m :: m in ms ==> Fields(m)
    ensures count == |VisualRows(ms, shown, width)|
    ensures rows == if draw then VisualRows(ms, shown, width) else []
  {
    hide MessageRows, Gap;
    count, rows := 0, [];
    if width == 0 {
      return;
    }
    ghost var all, done: seq<Row> := VisualRows(ms, shown, width), [];
    var previous: Option<Text> := None;
    var rest := ms;
    while rest != []
      invariant count == |done| && rows == (if draw then done else [])
      invariant Emitting(all, done, rest, shown, width, previous)
      decreases |rest|
    {
      NextMessage(all, done, rest, shown, width, previous);
      var m := rest[0];
      if shown(m) {
        var emitted, part := EmitMessage(m, width, previous, draw);
        done := done + (Gap(m, previous) + MessageRows(m, width));
        count, rows := count + emitted, rows + part;
        previous := SenderAfter(m, previous);
      }
      rest := rest[1..];
    }
  }

  // ----- drawing the window -----

  /** The drawing callback: rows from `first` on, at most `max` of them, below one another. */
  method DrawWindow(rows: seq<Row>, first: nat, max: nat, top: nat) returns (screen: seq<(nat, Row)>)
    ensures |screen| == if |rows| <= first then 0 else if |rows| - first <= max then |rows| - first else max
    ensures forall i :: 0 <= i < |screen| ==> screen[i] == (top + i, rows[first + i])
  {
    screen := [];
    for index := 0 to |rows|
      invariant |screen| == if index <= first then 0 else if index - first <= max then index - first else max
      invariant forall i :: 0 <= i < |screen| ==> screen[i] == (top + i, rows[first + i])
    {
      if index >= first && |screen| < max {
        screen := screen + [(top + |screen|, rows[index])];
      }
    }
  }

  /**
   The message area: the scroll offset is clamped, and the drawing pass fills the
   area from the bottom with exactly the rows that the counting pass promised.
   */
  method DrawMessages(ms: seq<Message>, shown: Message -> bool, width: nat, textRows: nat, scroll: nat)
    returns (newScroll: nat, screen: seq<(nat, Row)>)
    requires forall m :: m in ms ==> Fields(m)
    ensures var all := VisualRows(ms, shown, width);
      if textRows == 0 || ms == [] || all == [] then newScroll == scroll && screen == []
      else
        var hidden := if |all| > textRows then |all| - textRows else 0;
        && newScroll == (if scroll > hidden then hidden else scroll)
        && |screen| == (if |all| > textRows then textRows else |all|)
        && (forall i :: 0 <= i < |screen| ==>
              screen[i] == (textRows - |screen| + i, all[|all| - newScroll - |screen| + i]))
  {
    newScroll, screen := scroll, [];
    if textRows == 0 || ms == [] {
      return;
    }
    var total, _ := EmitVisualRows(ms, shown, width, false);
    if total == 0 {
      return;
    }
    var maxScroll := if total > textRows then total - textRows else 0;
    if newScroll > maxScroll {
      newScroll := maxScroll;
    }
    var first := if total > textRows + newScroll then total - textRows - newScroll else 0;
    var visible := if total > first then (if total - first < textRows then total - first else textRows) else 0;
    var _, rows := EmitVisualRows(ms, shown, width, true);
    screen := DrawWindow(rows, first, visible, textRows - visible);
  }
}
