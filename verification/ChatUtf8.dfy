/** On text that really is UTF-8, the chat application's columns are its characters. */
module ChatUtf8 {
  import ChatText
  import ManualChunks

  /** A first byte tells the length of the character, and the bytes behind it are read as part of it. */
  lemma CharsAreReadWhole(c: ManualChunks.Char, rest: ChatText.Text)
    ensures ChatText.CharLen(ManualChunks.EncodeChar(c) + rest) == |ManualChunks.EncodeChar(c)|
  {
    var bytes := ManualChunks.EncodeChar(c);
    ManualChunks.CharsAreEncodedExactly(c);
    assert forall i :: 0 <= i < |bytes| ==> (bytes + rest)[i] == bytes[i];
  }

  /** Every character of a text takes one column. */
  lemma {:induction false} CharsTakeOneColumn(t: ManualChunks.Text)
    ensures ChatText.Cols(ManualChunks.Encode(t)) == |t|
  {
    if t != [] {
      var bytes, rest := ManualChunks.EncodeChar(t[0]), ManualChunks.Encode(t[1..]);
      CharsAreReadWhole(t[0], rest);
      assert (bytes + rest)[|bytes|..] == rest;
      CharsTakeOneColumn(t[1..]);
    }
  }
}
