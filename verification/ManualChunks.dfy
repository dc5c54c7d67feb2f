/** Cutting rendered manual sections into excerpts that stay small after UTF-8 encoding. */
module ManualChunks {
  import opened Wrappers

  /** A Unicode scalar value, the unit in which Python counts text. */
  type Char = c: int | 0 <= c < 0xD800 || 0xE000 <= c < 0x110000

  type Byte = b: int | 0 <= b < 256

  type Text = seq<Char>

  const CHUNK_MAX := 900

  const NEWLINE: Char := 10
  const BLANK: Char := 32

  // ----- UTF-8 -----

  function EncodeChar(c: Char): (bytes: seq<Byte>)
    ensures 1 <= |bytes| <= 4
  {
    if c < 0x80 then [c]
    else if c < 0x800 then [0xC0 + c / 64, 0x80 + c % 64]
    else if c < 0x10000 then [0xE0 + c / 4096, 0x80 + c / 64 % 64, 0x80 + c % 64]
    else [0xF0 + c / 262144, 0x80 + c / 4096 % 64, 0x80 + c / 64 % 64, 0x80 + c % 64]
  }

  /** Which character bytes encode: six bits in each byte behind the first. */
  function Decoded(bytes: seq<int>): int {
    match |bytes|
    case 1 => bytes[0]
    case 2 => (bytes[0] - 0xC0) * 64 + (bytes[1] - 0x80)
    case 3 => ((bytes[0] - 0xE0) * 64 + (bytes[1] - 0x80)) * 64 + (bytes[2] - 0x80)
    case 4 => (((bytes[0] - 0xF0) * 64 + (bytes[1] - 0x80)) * 64 + (bytes[2] - 0x80)) * 64 + (bytes[3] - 0x80)
    case _ => -1
  }

  /** Encoding can be undone, and uses as few bytes as the character needs. */
  lemma CharsAreEncodedExactly(c: Char)
    ensures Decoded(EncodeChar(c)) == c
    ensures |EncodeChar(c)| == if c < 0x80 then 1 else if c < 0x800 then 2 else if c < 0x10000 then 3 else 4
    ensures forall i :: 0 < i < |EncodeChar(c)| ==> 0x80 <= EncodeChar(c)[i] < 0xC0
  {
    assert c / 4096 == c / 64 / 64 && c / 262144 == c / 4096 / 64;
  }

  function Encode(t: Text): seq<Byte> {
    if t == [] then [] else EncodeChar(t[0]) + Encode(t[1..])
  }

  lemma {:induction false} EncodeJoin(a: Text, b: Text)
    ensures Encode(a + b) == Encode(a) + Encode(b)
  {
    if a == [] {
      assert a + b == b;
    } else {
      assert (a + b)[1..] == a[1..] + b;
      EncodeJoin(a[1..], b);
    }
  }

  lemma EncodeSnoc(t: Text, i: nat, j: nat)
    requires i <= j < |t|
    ensures Encode(t[i..j + 1]) == Encode(t[i..j]) + EncodeChar(t[j])
  {
    EncodeJoin(t[i..j], [t[j]]);
    assert t[i..j + 1] == t[i..j] + [t[j]];
    assert Encode([t[j]]) == EncodeChar(t[j]) by {
      assert [t[j]][1..] == [];
      assert EncodeChar(t[j]) + [] == EncodeChar(t[j]);
    }
  }

  lemma {:induction false} EncodeSize(t: Text)
    ensures |t| <= |Encode(t)| <= 4 * |t|
  {
    if t != [] {
      EncodeSize(t[1..]);
    }
  }

  // ----- where a chunk ends -----

  predicate Matches(t: Text, sub: Text, i: nat) {
    i + |sub| <= |t| && t[i..i + |sub|] == sub
  }

  /** str.rfind: the last place of `sub` that lies within lo..hi. */
  function RFind(t: Text, sub: Text, lo: nat, hi: nat): (r: Option<nat>)
    requires hi <= |t| && sub != []
    ensures r.Some? ==> lo <= r.value && r.value + |sub| <= hi && Matches(t, sub, r.value)
    ensures r.None? ==> forall i: nat :: lo <= i && i + |sub| <= hi ==> !Matches(t, sub, i)
    decreases hi
  {
    if hi < lo + |sub| then None
    else if Matches(t, sub, hi - |sub|) then Some(hi - |sub|)
    else RFind(t, sub, lo, hi - 1)
  }

  /** The most that fits from `start` on. */
  ghost predicate FitsUpTo(t: Text, start: nat, limit: nat) {
    && start <= limit <= |t|
    && |Encode(t[start..limit])| <= CHUNK_MAX
    && (limit < |t| ==> |Encode(t[start..limit])| + |EncodeChar(t[limit])| > CHUNK_MAX)
  }

  function Minimum(start: nat, limit: nat): (m: nat)
    requires start <= limit
    ensures m > start
  {
    start + if (limit - start) / 3 > 1 then (limit - start) / 3 else 1
  }

  /** Behind the last paragraph break, else line break, else blank, else as far as fits. */
  function EndOf(t: Text, start: nat, limit: nat): nat
    requires start <= limit <= |t|
  {
    if limit == |t| then limit
    else
      var paragraph := RFind(t, [NEWLINE, NEWLINE], Minimum(start, limit), limit);
      var line := RFind(t, [NEWLINE], Minimum(start, limit), limit);
      var blank := RFind(t, [BLANK], Minimum(start, limit), limit);
      if paragraph.Some? then paragraph.value + 2
      else if line.Some? then line.value + 1
      else if blank.Some? then blank.value + 1
      else limit
  }

  /** What is promised of one chunk. */
  ghost predicate ChunkOk(t: Text, start: nat, end: nat) {
    && start < end <= |t|
    && |Encode(t[start..end])| <= CHUNK_MAX
    && (end < |t| ==> end - start > 75)
  }

  lemma ManyCharsFit(t: Text, start: nat, limit: nat)
    requires FitsUpTo(t, start, limit) && limit < |t|
    ensures limit - start >= 225
  {
    EncodeSize(t[start..limit]);
  }

  lemma PrefixIsSmaller(t: Text, start: nat, end: nat, limit: nat)
    requires start <= end <= limit <= |t|
    ensures |Encode(t[start..end])| <= |Encode(t[start..limit])|
  {
    EncodeJoin(t[start..end], t[end..limit]);
    assert t[start..limit] == t[start..end] + t[end..limit];
  }

  lemma EndIsGood(t: Text, start: nat, limit: nat)
    requires start < |t| && FitsUpTo(t, start, limit)
    ensures ChunkOk(t, start, EndOf(t, start, limit)) && EndOf(t, start, limit) <= limit
    ensures limit < |t| ==> EndOf(t, start, limit) < |t|
  {
    if limit < |t| {
      ManyCharsFit(t, start, limit);
    }
    PrefixIsSmaller(t, start, EndOf(t, start, limit), limit);
  }

  /** A word is cut only if the last two thirds of what fits hold no place to break. */
  lemma CutsAtBlanks(t: Text, start: nat, limit: nat, k: nat)
    requires start < |t| && FitsUpTo(t, start, limit) && limit < |t|
    requires Minimum(start, limit) <= k < limit && (t[k] == NEWLINE || t[k] == BLANK)
    ensures var end := EndOf(t, start, limit); 0 < end <= |t| && (t[end - 1] == NEWLINE || t[end - 1] == BLANK)
  {
    EndIsGood(t, start, limit);
    var minimum := Minimum(start, limit);
    var paragraph := RFind(t, [NEWLINE, NEWLINE], minimum, limit);
    var line, blank := RFind(t, [NEWLINE], minimum, limit), RFind(t, [BLANK], minimum, limit);
    if paragraph.Some? {
      LastMatched(t, [NEWLINE, NEWLINE], paragraph.value);
    } else if line.Some? {
      LastMatched(t, [NEWLINE], line.value);
    } else {
      assert Matches(t, [t[k]], k);
      LastMatched(t, [BLANK], blank.value);
    }
  }

  /** Place k of the text is a paragraph break, a line break or a blank, in a chunk of characters from lo to limit. */
  predicate ParagraphAt(t: Text, lo: nat, limit: nat, k: nat) {
    lo <= k && k + 2 <= limit <= |t| && t[k] == 10 && t[k + 1] == 10
  }

  predicate LineAt(t: Text, lo: nat, limit: nat, k: nat) {
    lo <= k < limit <= |t| && t[k] == 10
  }

  predicate BlankAt(t: Text, lo: nat, limit: nat, k: nat) {
    lo <= k < limit <= |t| && t[k] == 32
  }

  lemma PlacesMatch(t: Text, lo: nat, limit: nat, k: nat)
    requires limit <= |t|
    ensures ParagraphAt(t, lo, limit, k) <==> lo <= k && k + 2 <= limit && Matches(t, [NEWLINE, NEWLINE], k)
    ensures LineAt(t, lo, limit, k) <==> lo <= k && k + 1 <= limit && Matches(t, [NEWLINE], k)
    ensures BlankAt(t, lo, limit, k) <==> lo <= k && k + 1 <= limit && Matches(t, [BLANK], k)
  {
    if k + 2 <= |t| {
      assert t[k..k + 2] == [t[k], t[k + 1]];
    }
    if k + 1 <= |t| {
      assert t[k..k + 1] == [t[k]];
    }
  }

  /** str.rfind finds the last place. */
  lemma {:induction false} FindsTheLast(t: Text, sub: Text, lo: nat, hi: nat, k: nat)
    requires hi <= |t| && sub != [] && lo <= k && k + |sub| <= hi && Matches(t, sub, k)
    ensures RFind(t, sub, lo, hi).Some? && k <= RFind(t, sub, lo, hi).value
    decreases hi
  {
    if !Matches(t, sub, hi - |sub|) {
      FindsTheLast(t, sub, lo, hi - 1, k);
    }
  }

  /**
   Where a chunk ends that does not reach the end of the text: behind the last paragraph break that lies behind
   the first third of what fits; without one behind the last line break there; without one behind the last blank;
   and else where nothing more fits.
   */
  lemma ChunksEndAtTheLastBreak(t: Text, start: nat, limit: nat, lo: nat)
    requires start < limit < |t| && lo == start + (if (limit - start) / 3 > 1 then (limit - start) / 3 else 1)
    ensures var end := EndOf(t, start, limit);
      if exists k: nat :: ParagraphAt(t, lo, limit, k)
      then end >= 2 && ParagraphAt(t, lo, limit, end - 2)
           && forall k: nat :: ParagraphAt(t, lo, limit, k) ==> k + 2 <= end
      else if exists k: nat :: LineAt(t, lo, limit, k)
      then end >= 1 && LineAt(t, lo, limit, end - 1) && forall k: nat :: LineAt(t, lo, limit, k) ==> k + 1 <= end
      else if exists k: nat :: BlankAt(t, lo, limit, k)
      then end >= 1 && BlankAt(t, lo, limit, end - 1) && forall k: nat :: BlankAt(t, lo, limit, k) ==> k + 1 <= end
      else end == limit
  {
    hide Matches, RFind, ParagraphAt, LineAt, BlankAt;
    forall k: nat
      ensures ParagraphAt(t, lo, limit, k) ==> LastOr(t, [NEWLINE, NEWLINE], lo, limit, k)
      ensures LineAt(t, lo, limit, k) ==> LastOr(t, [NEWLINE], lo, limit, k)
      ensures BlankAt(t, lo, limit, k) ==> LastOr(t, [BLANK], lo, limit, k)
    {
      PlacesMatch(t, lo, limit, k);
      LastFound(t, [NEWLINE, NEWLINE], lo, limit, k);
      LastFound(t, [NEWLINE], lo, limit, k);
      LastFound(t, [BLANK], lo, limit, k);
    }
    FoundPlaces(t, lo, limit);
  }

  predicate LastOr(t: Text, sub: Text, lo: nat, hi: nat, k: nat)
    requires hi <= |t| && sub != []
  {
    RFind(t, sub, lo, hi).Some? && k <= RFind(t, sub, lo, hi).value
  }

  lemma LastFound(t: Text, sub: Text, lo: nat, hi: nat, k: nat)
    requires hi <= |t| && sub != []
    ensures lo <= k && k + |sub| <= hi && Matches(t, sub, k) ==> LastOr(t, sub, lo, hi, k)
  {
    if lo <= k && k + |sub| <= hi && Matches(t, sub, k) {
      FindsTheLast(t, sub, lo, hi, k);
    }
  }

  lemma FoundPlaces(t: Text, lo: nat, limit: nat)
    requires limit <= |t|
    ensures var p := RFind(t, [NEWLINE, NEWLINE], lo, limit); p.Some? ==> ParagraphAt(t, lo, limit, p.value)
    ensures var l := RFind(t, [NEWLINE], lo, limit); l.Some? ==> LineAt(t, lo, limit, l.value)
    ensures var b := RFind(t, [BLANK], lo, limit); b.Some? ==> BlankAt(t, lo, limit, b.value)
  {
    var p, l := RFind(t, [NEWLINE, NEWLINE], lo, limit), RFind(t, [NEWLINE], lo, limit);
    var b := RFind(t, [BLANK], lo, limit);
    if p.Some? { PlacesMatch(t, lo, limit, p.value); }
    if l.Some? { PlacesMatch(t, lo, limit, l.value); }
    if b.Some? { PlacesMatch(t, lo, limit, b.value); }
  }

  lemma LastMatched(t: Text, sub: Text, i: nat)
    requires sub != [] && Matches(t, sub, i)
    ensures t[i + |sub| - 1] == sub[|sub| - 1]
  {
    assert t[i..i + |sub|][|sub| - 1] == t[i + |sub| - 1];
  }

  // ----- the chunks -----

  type Range = (nat, nat)

  /** Ranges that follow one another from `start`. */
  ghost predicate Chained(chunks: seq<Range>, start: nat, end: nat) {
    if chunks == [] then start == end
    else chunks[|chunks| - 1].1 == end && Chained(chunks[..|chunks| - 1], start, chunks[|chunks| - 1].0)
  }

  ghost predicate ChunksOk(t: Text, chunks: seq<Range>) {
    forall i :: 0 <= i < |chunks| ==> ChunkOk(t, chunks[i].0, chunks[i].1)
  }

  /** The chunk ends where the rule for what fits from its start says. */
  ghost predicate ChunkChosen(t: Text, chunk: Range) {
    exists limit :: FitsUpTo(t, chunk.0, limit) && chunk.1 == EndOf(t, chunk.0, limit)
  }

  ghost predicate ChunksChosen(t: Text, chunks: seq<Range>) {
    forall i :: 0 <= i < |chunks| ==> ChunkChosen(t, chunks[i])
  }

  lemma NextChunk(t: Text, chunks: seq<Range>, start: nat, limit: nat)
    requires start < |t| && FitsUpTo(t, start, limit)
    requires Chained(chunks, 0, start) && ChunksOk(t, chunks) && ChunksChosen(t, chunks)
    ensures var end := EndOf(t, start, limit);
      && start < end <= |t|
      && var more := chunks + [(start, end)];
         Chained(more, 0, end) && ChunksOk(t, more) && ChunksChosen(t, more)
  {
    EndIsGood(t, start, limit);
    var chunk := (start, EndOf(t, start, limit));
    assert ChunkChosen(t, chunk);
    assert (chunks + [chunk])[..|chunks|] == chunks;
  }

  /** The inner loop: as many characters as fit in the byte limit. */
  method FindLimit(t: Text, start: nat) returns (limit: nat)
    requires start < |t|
    ensures FitsUpTo(t, start, limit)
  {
    var used := 0;
    limit := start;
    assert t[start..start] == [];
    while limit < |t|
      invariant start <= limit <= |t|
      invariant used == |Encode(t[start..limit])| <= CHUNK_MAX
    {
      var encoded := |EncodeChar(t[limit])|;
      if used + encoded > CHUNK_MAX {
        break;
      }
      EncodeSnoc(t, start, limit);
      used, limit := used + encoded, limit + 1;
    }
  }

  /** split_agent_reference: the text cut in order into chunks that are small, and not too small. */
  method SplitReference(t: Text) returns (chunks: seq<Range>)
    ensures Chained(chunks, 0, |t|) && ChunksOk(t, chunks) && ChunksChosen(t, chunks)
  {
    chunks := [];
    var start := 0;
    while start < |t|
      invariant start <= |t| && Chained(chunks, 0, start) && ChunksOk(t, chunks) && ChunksChosen(t, chunks)
      decreases |t| - start
    {
      var limit := FindLimit(t, start);
      NextChunk(t, chunks, start, limit);
      var end := EndOf(t, start, limit);
      chunks := chunks + [(start, end)];
      start := end;
    }
  }

  /** The excerpts one after the other. */
  function Excerpts(t: Text, chunks: seq<Range>): Text
    requires forall i :: 0 <= i < |chunks| ==> chunks[i].0 <= chunks[i].1 <= |t|
  {
    if chunks == [] then []
    else Excerpts(t, chunks[..|chunks| - 1]) + t[chunks[|chunks| - 1].0..chunks[|chunks| - 1].1]
  }

  lemma {:induction false} ExcerptsUpTo(t: Text, chunks: seq<Range>, end: nat)
    requires Chained(chunks, 0, end) && ChunksOk(t, chunks)
    ensures end <= |t| && Excerpts(t, chunks) == t[..end]
  {
    if chunks != [] {
      var last := chunks[|chunks| - 1];
      ExcerptsUpTo(t, chunks[..|chunks| - 1], last.0);
      assert t[..end] == t[..last.0] + t[last.0..last.1];
    }
  }

  /** No character is lost, repeated or moved: the excerpts make up the text. */
  lemma ChunksPartitionTheText(t: Text, chunks: seq<Range>)
    requires Chained(chunks, 0, |t|) && ChunksOk(t, chunks)
    ensures Excerpts(t, chunks) == t
  {
    ExcerptsUpTo(t, chunks, |t|);
    assert t[..|t|] == t;
  }
}
