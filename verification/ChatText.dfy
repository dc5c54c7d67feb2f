/** UTF-8 text as the chat application reads it: characters, columns and words. */
module ChatText {

  type Byte = x: int | 0 <= x < 256

  /** A C string without its terminator. */
  type Text = seq<Byte>

  ghost predicate Terminated(t: Text) {
    forall i :: 0 <= i < |t| ==> t[i] != 0
  }

  const SPACE: Byte := 32
  const TAB: Byte := 9
  const LF: Byte := 10
  const CR: Byte := 13

  predicate Blank(b: Byte) {
    b == SPACE || b == TAB || b == LF || b == CR
  }

  predicate Continues(b: Byte) {
    0x80 <= b < 0xC0
  }

  /** The bytes of the character that starts with b0, when b1, b2 and b3 follow. */
  function CharBytes(b0: Byte, b1: Byte, b2: Byte, b3: Byte): (n: nat)
    ensures 1 <= n <= 4
    ensures (n > 1 ==> Continues(b1)) && (n > 2 ==> Continues(b2)) && (n > 3 ==> Continues(b3))
  {
    if b0 < 0x80 then 1
    else if 0xC0 <= b0 < 0xE0 && Continues(b1) then 2
    else if 0xE0 <= b0 < 0xF0 && Continues(b1) && Continues(b2) then 3
    else if 0xF0 <= b0 < 0xF8 && Continues(b1) && Continues(b2) && Continues(b3) then 4
    else 1
  }

  /** A byte of the C string, or its terminator. */
  function At(t: Text, i: nat): Byte {
    if i < |t| then t[i] else 0
  }

  /** chat_utf8_char_len: a malformed sequence counts as one byte. */
  function CharLen(t: Text): (n: nat)
    ensures n <= |t| && n <= 4 && (t != [] ==> n > 0)
  {
    if t == [] then 0 else CharBytes(t[0], At(t, 1), At(t, 2), At(t, 3))
  }

  /** chat_utf8_width: the columns a text takes. */
  function Cols(t: Text): nat {
    if t == [] then 0 else 1 + Cols(t[CharLen(t)..])
  }

  /** How many bytes and columns of `t` fit in `maxCols` columns and `maxBytes` bytes. */
  function Take(t: Text, maxCols: nat, maxBytes: nat): (r: (nat, nat))
    ensures r.0 <= |t| && r.0 <= maxBytes && r.1 <= maxCols
  {
    if t == [] || maxCols == 0 || CharLen(t) > maxBytes then (0, 0)
    else
      var rest := Take(t[CharLen(t)..], maxCols - 1, maxBytes - CharLen(t));
      (CharLen(t) + rest.0, 1 + rest.1)
  }

  /** The bytes and columns of the word at the start of `t`. */
  function WordAt(t: Text): (r: (nat, nat))
    ensures r.0 <= |t|
  {
    if t == [] || Blank(t[0]) then (0, 0)
    else
      var rest := WordAt(t[CharLen(t)..]);
      (CharLen(t) + rest.0, 1 + rest.1)
  }

  // ----- the loops; a pointer into a string is the string from there on -----

  /** What the rest of the text yields completes what has been taken. */
  ghost predicate Taking(t: Text, maxCols: nat, maxBytes: nat, bytes: nat, cols: nat, rest: Text) {
    && cols <= maxCols && bytes <= maxBytes
    && Take(t, maxCols, maxBytes).0 == bytes + Take(rest, maxCols - cols, maxBytes - bytes).0
    && Take(t, maxCols, maxBytes).1 == cols + Take(rest, maxCols - cols, maxBytes - bytes).1
  }

  lemma TakeNext(t: Text, maxCols: nat, maxBytes: nat, bytes: nat, cols: nat, rest: Text)
    requires cols < maxCols && Taking(t, maxCols, maxBytes, bytes, cols, rest)
    requires rest != [] && bytes + CharLen(rest) <= maxBytes
    ensures Taking(t, maxCols, maxBytes, bytes + CharLen(rest), cols + 1, rest[CharLen(rest)..])
  {
  }

  lemma TakeDone(t: Text, maxCols: nat, maxBytes: nat, bytes: nat, cols: nat, rest: Text)
    requires Taking(t, maxCols, maxBytes, bytes, cols, rest)
    requires rest == [] || cols == maxCols || bytes + CharLen(rest) > maxBytes
    ensures Take(t, maxCols, maxBytes) == (bytes, cols)
  {
  }

  /** chat_take_columns */
  method TakeColumns(text: Text, maxCols: nat, maxBytes: nat) returns (bytes: nat, cols: nat)
    ensures (bytes, cols) == Take(text, maxCols, maxBytes)
  {
    bytes, cols := 0, 0;
    if maxCols == 0 || maxBytes == 0 {
      return;
    }
    var rest := text;
    while rest != [] && cols < maxCols
      invariant Taking(text, maxCols, maxBytes, bytes, cols, rest)
      decreases |rest|
    {
      var n := CharLen(rest);
      if n == 0 || bytes + n > maxBytes {
        break;
      }
      TakeNext(text, maxCols, maxBytes, bytes, cols, rest);
      bytes, cols, rest := bytes + n, cols + 1, rest[n..];
    }
    TakeDone(text, maxCols, maxBytes, bytes, cols, rest);
  }

  ghost predicate Scanning(t: Text, bytes: nat, cols: nat, rest: Text) {
    WordAt(t).0 == bytes + WordAt(rest).0 && WordAt(t).1 == cols + WordAt(rest).1
  }

  /** chat_scan_word */
  method ScanWord(text: Text) returns (bytes: nat, cols: nat)
    ensures (bytes, cols) == WordAt(text)
  {
    bytes, cols := 0, 0;
    var rest := text;
    while rest != [] && !Blank(rest[0])
      invariant Scanning(text, bytes, cols, rest)
      decreases |rest|
    {
      var n := CharLen(rest);
      bytes, cols, rest := bytes + n, cols + 1, rest[n..];
    }
  }

  /** chat_utf8_width */
  method Width(text: Text) returns (width: nat)
    ensures width == Cols(text)
  {
    width := 0;
    var rest := text;
    while rest != []
      invariant width + Cols(rest) == Cols(text)
      decreases |rest|
    {
      width, rest := width + 1, rest[CharLen(rest)..];
    }
  }

  // ----- cutting and joining -----

  lemma CharTail(t: Text)
    ensures forall i :: 0 < i < CharLen(t) ==> Continues(t[i])
  {
  }

  /** A character that lies within a prefix is read the same way there. */
  lemma CharLenOfPrefix(t: Text, n: nat)
    requires CharLen(t) <= n <= |t|
    ensures CharLen(t[..n]) == CharLen(t)
  {
  }

  lemma {:induction false} TakeSize(t: Text, maxCols: nat, maxBytes: nat)
    ensures var r := Take(t, maxCols, maxBytes); r.1 <= r.0 <= 4 * r.1
  {
    if t != [] && maxCols > 0 && CharLen(t) <= maxBytes {
      TakeSize(t[CharLen(t)..], maxCols - 1, maxBytes - CharLen(t));
    }
  }

  /** What is taken is as wide as it is counted, and so is what is left. */
  lemma {:induction false} TakeCols(t: Text, maxCols: nat, maxBytes: nat)
    ensures var r := Take(t, maxCols, maxBytes); Cols(t[..r.0]) == r.1 && Cols(t) == r.1 + Cols(t[r.0..])
  {
    hide CharLen;
    if t == [] || maxCols == 0 || CharLen(t) > maxBytes {
      assert t[0..] == t;
    } else {
      var n, b := CharLen(t), Take(t, maxCols, maxBytes).0;
      TakeCols(t[n..], maxCols - 1, maxBytes - n);
      CharLenOfPrefix(t, b);
      assert t[..b][n..] == t[n..][..b - n];
      assert t[n..][b - n..] == t[b..];
    }
  }

  /** Unless a character is too long for the byte limit, all columns asked for are taken. */
  lemma {:induction false} TakeIsMaximal(t: Text, maxCols: nat, maxBytes: nat)
    requires 4 * maxCols <= maxBytes
    ensures Take(t, maxCols, maxBytes).1 == if Cols(t) <= maxCols then Cols(t) else maxCols
  {
    if t != [] && maxCols > 0 {
      TakeIsMaximal(t[CharLen(t)..], maxCols - 1, maxBytes - CharLen(t));
    }
  }

  lemma CharsHaveColumns(t: Text)
    ensures Cols(t) > 0 <==> t != []
  {
  }

  /** With room for all bytes, all columns asked for are taken. */
  lemma {:induction false} TakeWithRoom(t: Text, maxCols: nat, maxBytes: nat)
    requires |t| <= maxBytes
    ensures Take(t, maxCols, maxBytes).1 == if Cols(t) <= maxCols then Cols(t) else maxCols
  {
    if t != [] && maxCols > 0 {
      TakeWithRoom(t[CharLen(t)..], maxCols - 1, maxBytes - CharLen(t));
    }
  }

  lemma {:induction false} WordBounds(t: Text)
    ensures var (b, c) := WordAt(t);
      && b <= |t| && c <= b <= 4 * c && Cols(t[..b]) == c
      && (forall i :: 0 <= i < b ==> !Blank(t[i]))
      && (b < |t| ==> Blank(t[b]))
  {
    hide CharLen;
    if t != [] && !Blank(t[0]) {
      var n := CharLen(t);
      var b := WordAt(t).0;
      WordBounds(t[n..]);
      assert Cols(t[..b]) == WordAt(t).1 by {
        CharLenOfPrefix(t, b);
        assert t[..b][n..] == t[n..][..b - n];
      }
      CharTail(t);
      forall i | 0 <= i < b
        ensures !Blank(t[i])
      {
        assert i >= n ==> t[i] == t[n..][i - n];
      }
    }
  }

  lemma {:induction false} ColsOfContinuations(t: Text, n: nat)
    requires n <= |t| && forall i :: 0 <= i < n ==> Continues(t[i])
    ensures Cols(t) == n + Cols(t[n..])
  {
    if n > 0 {
      ColsOfContinuations(t[1..], n - 1);
      assert t[1..][n - 1..] == t[n..];
    } else {
      assert t[0..] == t;
    }
  }

  /** Joining two texts never takes more columns than they take apart. */
  lemma {:induction false} ColsOfJoin(a: Text, b: Text)
    ensures Cols(a + b) <= Cols(a) + Cols(b)
  {
    if a == [] {
      assert a + b == b;
    } else {
      var n := CharLen(a + b);
      if n <= |a| {
        CharLenOfPrefix(a + b, |a|);
        assert (a + b)[..|a|] == a;
        assert (a + b)[n..] == a[n..] + b;
        ColsOfJoin(a[n..], b);
      } else {
        // the last character of `a` was incomplete and `b` completes it
        CharTail(a + b);
        assert forall i :: 0 <= i < n - |a| ==> b[i] == (a + b)[|a| + i];
        ColsOfContinuations(b, n - |a|);
        assert (a + b)[n..] == b[n - |a|..];
      }
    }
  }
}
