/** Locating the excerpts of manual sections in the rendered page by byte offset. */
module ManualReferences {
  import opened Wrappers
  import opened ManualChunks

  /** A section as rendered; the quick reference is left out of the index. */
  datatype Section = Section(topic: string, quick: bool, rendered: Text)

  /** An excerpt: bytes `offset` to `offset + length` of the page, part `part` of `parts`. */
  datatype Reference = Reference(topic: string, offset: nat, length: nat, part: nat, parts: nat)

  /** str.find from a position on. */
  function FindFrom(body: Text, sub: Text, from: nat): (r: Option<nat>)
    ensures r.Some? ==> from <= r.value && Matches(body, sub, r.value)
    ensures r.Some? ==> forall i :: from <= i < r.value ==> !Matches(body, sub, i)
    ensures r.None? ==> forall i :: from <= i ==> !Matches(body, sub, i)
    decreases |body| - from
  {
    if from + |sub| > |body| then None
    else if Matches(body, sub, from) then Some(from)
    else FindFrom(body, sub, from + 1)
  }

  /** The byte range of body[a..b]. */
  ghost predicate Selects(body: Text, r: Reference, a: nat, b: nat) {
    && a <= b <= |body|
    && r.offset == |Encode(body[..a])|
    && r.offset + r.length <= |Encode(body)|
    && Encode(body)[r.offset..r.offset + r.length] == Encode(body[a..b])
  }

  lemma SliceOfEncoding(body: Text, a: nat, b: nat)
    requires a <= b <= |body|
    ensures |Encode(body[..a])| + |Encode(body[a..b])| == |Encode(body[..b])| <= |Encode(body)|
    ensures Encode(body)[|Encode(body[..a])|..|Encode(body[..b])|] == Encode(body[a..b])
  {
    EncodeJoin(body[..a], body[a..b]);
    EncodeJoin(body[..b], body[b..]);
    assert body[..b] == body[..a] + body[a..b];
    assert body == body[..b] + body[b..];
  }

  /** A reference to one chunk of a section that starts at character `at` of the body. */
  ghost predicate RefersTo(body: Text, s: Section, at: nat, r: Reference, part: nat, parts: nat, chunk: Range) {
    && r.topic == s.topic && r.part == part && r.parts == parts
    && 0 < r.length <= CHUNK_MAX
    && Selects(body, r, at + chunk.0, at + chunk.1)
  }

  function ReferenceTo(body: Text, s: Section, at: nat, part: nat, parts: nat, chunk: Range): Reference
    requires chunk.0 <= chunk.1 <= |s.rendered| && at + |s.rendered| <= |body|
  {
    Reference(s.topic, |Encode(body[..at + chunk.0])|, |Encode(s.rendered[chunk.0..chunk.1])|, part, parts)
  }

  lemma SliceOfSlice(body: Text, at: nat, n: nat, a: nat, b: nat)
    requires a <= b <= n && at + n <= |body|
    ensures body[at..at + n][a..b] == body[at + a..at + b]
  {
    var inner := body[at..at + n];
    assert forall k :: a <= k < b ==> inner[k] == body[at + k];
  }

  lemma ReferenceIsSound(body: Text, s: Section, at: nat, part: nat, parts: nat, chunk: Range)
    requires Matches(body, s.rendered, at) && ChunkOk(s.rendered, chunk.0, chunk.1)
    ensures RefersTo(body, s, at, ReferenceTo(body, s, at, part, parts, chunk), part, parts, chunk)
  {
    SliceOfSlice(body, at, |s.rendered|, chunk.0, chunk.1);
    ExcerptIsSelected(body, ReferenceTo(body, s, at, part, parts, chunk), at + chunk.0, at + chunk.1);
  }

  lemma ExcerptIsSelected(body: Text, r: Reference, a: nat, b: nat)
    requires a < b <= |body| && r.offset == |Encode(body[..a])| && r.length == |Encode(body[a..b])|
    ensures Selects(body, r, a, b) && r.length > 0
  {
    SliceOfEncoding(body, a, b);
    EncodeSize(body[a..b]);
  }

  ghost predicate SectionIndexed(body: Text, s: Section, at: nat, refs: seq<Reference>, chunks: seq<Range>) {
    && Matches(body, s.rendered, at)
    && Chained(chunks, 0, |s.rendered|) && ChunksOk(s.rendered, chunks) && ChunksChosen(s.rendered, chunks)
    && |refs| == |chunks|
    && (forall i :: 0 <= i < |refs| ==> RefersTo(body, s, at, refs[i], i + 1, |refs|, chunks[i]))
  }

  function SectionRefs(body: Text, s: Section, at: nat, chunks: seq<Range>): (refs: seq<Reference>)
    requires at + |s.rendered| <= |body|
    requires forall i :: 0 <= i < |chunks| ==> chunks[i].0 <= chunks[i].1 <= |s.rendered|
    ensures |refs| == |chunks|
  {
    seq(|chunks|, i requires 0 <= i < |chunks| => ReferenceTo(body, s, at, i + 1, |chunks|, chunks[i]))
  }

  lemma RangesFit(t: Text, chunks: seq<Range>)
    requires ChunksOk(t, chunks)
    ensures forall i :: 0 <= i < |chunks| ==> chunks[i].0 <= chunks[i].1 <= |t|
  {
    forall i | 0 <= i < |chunks|
      ensures chunks[i].0 <= chunks[i].1 <= |t|
    {
      assert ChunkOk(t, chunks[i].0, chunks[i].1);
    }
  }

  lemma SectionIsIndexed(body: Text, s: Section, at: nat, chunks: seq<Range>, i: nat)
    requires Matches(body, s.rendered, at) && ChunksOk(s.rendered, chunks) && i < |chunks|
    requires forall j :: 0 <= j < |chunks| ==> chunks[j].0 <= chunks[j].1 <= |s.rendered|
    ensures RefersTo(body, s, at, SectionRefs(body, s, at, chunks)[i], i + 1, |chunks|, chunks[i])
  {
    ReferenceIsSound(body, s, at, i + 1, |chunks|, chunks[i]);
  }

  /** The inner loop over the chunks of a section. */
  method EmitReferences(body: Text, s: Section, at: nat, chunks: seq<Range>) returns (refs: seq<Reference>)
    requires at + |s.rendered| <= |body|
    requires forall i :: 0 <= i < |chunks| ==> chunks[i].0 <= chunks[i].1 <= |s.rendered|
    ensures refs == SectionRefs(body, s, at, chunks)
  {
    refs := [];
    for part := 0 to |chunks|
      invariant refs == SectionRefs(body, s, at, chunks)[..part]
    {
      refs := refs + [ReferenceTo(body, s, at, part + 1, |chunks|, chunks[part])];
    }
  }

  method IndexSection(body: Text, s: Section, at: nat) returns (refs: seq<Reference>, chunks: seq<Range>)
    requires Matches(body, s.rendered, at)
    ensures SectionIndexed(body, s, at, refs, chunks)
  {
    chunks := SplitReference(s.rendered);
    RangesFit(s.rendered, chunks);
    refs := EmitReferences(body, s, at, chunks);
    forall i | 0 <= i < |refs|
      ensures RefersTo(body, s, at, refs[i], i + 1, |refs|, chunks[i])
    {
      SectionIsIndexed(body, s, at, chunks, i);
    }
  }

  // ----- all sections -----

  /**
   The sections in turn, each found at its first occurrence behind the one
   before, the last one ending at character `end`; `refs` are their references.
   */
  ghost predicate Indexed(body: Text, sections: seq<Section>, refs: seq<Reference>, end: nat)
    decreases |sections|, 0
  {
    if sections == [] then refs == [] && end == 0
    else
      var init, last := sections[..|sections| - 1], sections[|sections| - 1];
      if last.quick then Indexed(body, init, refs, end)
      else exists from: nat, n: nat, at: nat, chunks :: Extends(body, init, last, refs, end, from, n, at, chunks)
  }

  ghost predicate Extends(body: Text, init: seq<Section>, last: Section, refs: seq<Reference>, end: nat,
                          from: nat, n: nat, at: nat, chunks: seq<Range>)
    decreases |init|, 1
  {
    && n <= |refs|
    && Indexed(body, init, refs[..n], from)
    && FindFrom(body, last.rendered, from) == Some(at)
    && end == at + |last.rendered|
    && SectionIndexed(body, last, at, refs[n..], chunks)
  }

  /** Some of these references are to that topic. */
  predicate Refers(refs: seq<Reference>, topic: string) {
    exists r :: r in refs && r.topic == topic
  }

  /** The topic is that of a section other than the quick reference. */
  predicate Covers(sections: seq<Section>, topic: string) {
    exists s :: s in sections && !s.quick && s.topic == topic
  }

  lemma SectionRefersToItself(body: Text, s: Section, at: nat, refs: seq<Reference>, chunks: seq<Range>)
    requires SectionIndexed(body, s, at, refs, chunks)
    ensures forall r :: r in refs ==> r.topic == s.topic
    ensures s.rendered != [] ==> Refers(refs, s.topic)
  {
    forall i | 0 <= i < |refs|
      ensures refs[i].topic == s.topic
    {
      assert RefersTo(body, s, at, refs[i], i + 1, |refs|, chunks[i]);
    }
    if refs != [] {
      assert refs[0] in refs;
    }
  }

  /** References are to sections other than the quick reference, and to all of these that are not empty. */
  lemma {:induction false} SectionsAreCovered(body: Text, sections: seq<Section>, refs: seq<Reference>, end: nat)
    requires Indexed(body, sections, refs, end)
    ensures forall r :: r in refs ==> Covers(sections, r.topic)
    ensures forall s :: s in sections && !s.quick && s.rendered != [] ==> Refers(refs, s.topic)
    decreases |sections|
  {
    hide Refers, Covers;
    if sections != [] {
      var init, last := sections[..|sections| - 1], sections[|sections| - 1];
      assert sections == init + [last];
      if last.quick {
        SectionsAreCovered(body, init, refs, end);
        QuickSection(init, last, refs);
      } else {
        var from: nat, n: nat, at: nat, chunks :| Extends(body, init, last, refs, end, from, n, at, chunks);
        assert n <= |refs| && Indexed(body, init, refs[..n], from);
        assert SectionIndexed(body, last, at, refs[n..], chunks);
        hide Indexed, Extends, SectionIndexed;
        SectionsAreCovered(body, init, refs[..n], from);
        SectionRefersToItself(body, last, at, refs[n..], chunks);
        OneMoreSection(init, last, refs[..n], refs[n..]);
        assert refs == refs[..n] + refs[n..];
      }
    }
  }

  lemma QuickSection(init: seq<Section>, last: Section, refs: seq<Reference>)
    requires last.quick && forall r :: r in refs ==> Covers(init, r.topic)
    ensures forall r :: r in refs ==> Covers(init + [last], r.topic)
  {
    forall r | r in refs
      ensures Covers(init + [last], r.topic)
    {
      CoversMore(init, last, r.topic);
    }
  }

  lemma CoversMore(init: seq<Section>, last: Section, topic: string)
    requires Covers(init, topic)
    ensures Covers(init + [last], topic)
  {
    var s :| s in init && !s.quick && s.topic == topic;
    assert s in init + [last];
  }

  lemma OneMoreSection(init: seq<Section>, last: Section, before: seq<Reference>, own: seq<Reference>)
    requires !last.quick && (forall r :: r in before ==> Covers(init, r.topic))
    requires forall s :: s in init && !s.quick && s.rendered != [] ==> Refers(before, s.topic)
    requires (forall r :: r in own ==> r.topic == last.topic) && (last.rendered != [] ==> Refers(own, last.topic))
    ensures forall r :: r in before + own ==> Covers(init + [last], r.topic)
    ensures forall s :: s in init + [last] && !s.quick && s.rendered != [] ==> Refers(before + own, s.topic)
  {
    forall r | r in before + own
      ensures Covers(init + [last], r.topic)
    {
      if r in before {
        CoversMore(init, last, r.topic);
      } else {
        assert last in init + [last];
      }
    }
    forall s | s in init + [last] && !s.quick && s.rendered != []
      ensures Refers(before + own, s.topic)
    {
      var from := if s in init then before else own;
      var r :| r in from && r.topic == s.topic;
      assert r in before + own;
    }
  }

  /** Section i does not occur behind the sections before it. */
  ghost predicate Stuck(body: Text, sections: seq<Section>, i: nat, refs: seq<Reference>, from: nat) {
    && i < |sections| && Indexed(body, sections[..i], refs, from)
    && !sections[i].quick && FindFrom(body, sections[i].rendered, from) == None
  }

  /** derive_agent_references: None is the error for a section that the page does not contain. */
  method DeriveReferences(body: Text, sections: seq<Section>) returns (r: Option<seq<Reference>>)
    ensures r.Some? ==> exists end :: Indexed(body, sections, r.value, end)
    ensures r.None? ==> exists i: nat, refs, from: nat :: Stuck(body, sections, i, refs, from)
  {
    var refs: seq<Reference> := [];
    var from: nat := 0;
    for i := 0 to |sections|
      invariant Indexed(body, sections[..i], refs, from)
    {
      var s := sections[i];
      assert sections[..i + 1][..i] == sections[..i];
      if s.quick {
        continue;
      }
      var at := FindFrom(body, s.rendered, from);
      if at.None? {
        assert Stuck(body, sections, i, refs, from);
        return None;
      }
      var own, chunks := IndexSection(body, s, at.value);
      assert (refs + own)[..|refs|] == refs && (refs + own)[|refs|..] == own;
      assert Extends(body, sections[..i], s, refs + own, at.value + |s.rendered|, from, |refs|, at.value, chunks);
      refs := refs + own;
      from := at.value + |s.rendered|;
    }
    assert sections[..|sections|] == sections;
    r := Some(refs);
  }

  // ----- excerpts do not overlap -----

  /** The byte position of a character. */
  function BytePos(body: Text, i: nat): nat
    requires i <= |body|
  {
    |Encode(body[..i])|
  }

  lemma BytePosGrows(body: Text, i: nat, j: nat)
    requires i <= j <= |body|
    ensures BytePos(body, i) <= BytePos(body, j)
  {
    EncodeJoin(body[..i], body[i..j]);
    assert body[..j] == body[..i] + body[i..j];
  }

  /** References one behind the other between two byte positions. */
  ghost predicate InOrder(refs: seq<Reference>, from: nat, to: nat) {
    if refs == [] then from <= to
    else
      var last := refs[|refs| - 1];
      last.offset + last.length <= to && InOrder(refs[..|refs| - 1], from, last.offset)
  }

  lemma {:induction false} InOrderJoin(a: seq<Reference>, b: seq<Reference>, from: nat, middle: nat, to: nat)
    requires InOrder(a, from, middle) && InOrder(b, middle, to)
    ensures InOrder(a + b, from, to)
  {
    if b == [] {
      assert a + b == a;
      InOrderWider(a, from, middle, to);
    } else {
      InOrderJoin(a, b[..|b| - 1], from, middle, b[|b| - 1].offset);
      assert (a + b)[..|a + b| - 1] == a + b[..|b| - 1];
    }
  }

  lemma InOrderWider(a: seq<Reference>, from: nat, middle: nat, to: nat)
    requires InOrder(a, from, middle) && middle <= to
    ensures InOrder(a, from, to)
  {
  }

  lemma SelectedEnd(body: Text, r: Reference, a: nat, b: nat)
    requires Selects(body, r, a, b)
    ensures r.offset == BytePos(body, a) && r.offset + r.length == BytePos(body, b)
  {
    SliceOfEncoding(body, a, b);
  }

  /** References to chained chunks lie in order, whatever the byte positions of the characters. */
  lemma {:induction false} ChainInOrder(refs: seq<Reference>, chunks: seq<Range>, position: seq<int>, end: nat)
    requires |refs| == |chunks| && end < |position| && Chained(chunks, 0, end)
    requires forall i :: 0 <= i < |chunks| ==> chunks[i].0 < chunks[i].1 < |position|
    requires forall i :: 0 <= i < |refs| ==>
      refs[i].offset == position[chunks[i].0] && refs[i].offset + refs[i].length == position[chunks[i].1]
    requires forall i :: 0 <= i < |position| ==> position[i] >= 0
    ensures InOrder(refs, position[0], position[end])
  {
    if refs != [] {
      var m := |refs| - 1;
      ChainInOrder(refs[..m], chunks[..m], position, chunks[m].0);
    }
  }

  /** The byte positions of the n characters from `at` on, and of what follows them. */
  function Positions(body: Text, at: nat, n: nat): (ps: seq<int>)
    requires at + n <= |body|
    ensures |ps| == n + 1 && (forall i :: 0 <= i <= n ==> ps[i] == BytePos(body, at + i))
  {
    seq(n + 1, k requires 0 <= k <= n => BytePos(body, at + k))
  }

  lemma ReferenceBytes(body: Text, s: Section, at: nat, r: Reference, part: nat, parts: nat, chunk: Range)
    requires at + |s.rendered| <= |body| && ChunkOk(s.rendered, chunk.0, chunk.1)
    requires RefersTo(body, s, at, r, part, parts, chunk)
    ensures var position := Positions(body, at, |s.rendered|);
      r.offset == position[chunk.0] && r.offset + r.length == position[chunk.1]
  {
    SelectedEnd(body, r, at + chunk.0, at + chunk.1);
  }

  lemma SectionInOrder(body: Text, s: Section, at: nat, refs: seq<Reference>, chunks: seq<Range>)
    requires at + |s.rendered| <= |body| && SectionIndexed(body, s, at, refs, chunks)
    ensures InOrder(refs, BytePos(body, at), BytePos(body, at + |s.rendered|))
  {
    var position := Positions(body, at, |s.rendered|);
    forall i | 0 <= i < |refs|
      ensures chunks[i].0 < chunks[i].1 < |position|
      ensures refs[i].offset == position[chunks[i].0] && refs[i].offset + refs[i].length == position[chunks[i].1]
    {
      ReferenceOfSection(body, s, at, refs, chunks, i);
    }
    assert position[0] == BytePos(body, at + 0);
    ChainInOrder(refs, chunks, position, |s.rendered|);
  }

  lemma ReferenceOfSection(body: Text, s: Section, at: nat, refs: seq<Reference>, chunks: seq<Range>, i: nat)
    requires at + |s.rendered| <= |body| && SectionIndexed(body, s, at, refs, chunks) && i < |refs|
    ensures chunks[i].0 < chunks[i].1 <= |s.rendered|
    ensures var position := Positions(body, at, |s.rendered|);
      refs[i].offset == position[chunks[i].0] && refs[i].offset + refs[i].length == position[chunks[i].1]
  {
    assert ChunkOk(s.rendered, chunks[i].0, chunks[i].1);
    ReferenceBytes(body, s, at, refs[i], i + 1, |refs|, chunks[i]);
  }

  lemma SectionFollows(body: Text, s: Section, from: nat, at: nat, before: seq<Reference>, own: seq<Reference>,
                       chunks: seq<Range>)
    requires from <= at && SectionIndexed(body, s, at, own, chunks)
    requires from <= |body| && InOrder(before, 0, BytePos(body, from))
    ensures at + |s.rendered| <= |body| && InOrder(before + own, 0, BytePos(body, at + |s.rendered|))
  {
    BytePosGrows(body, from, at);
    InOrderWider(before, 0, BytePos(body, from), BytePos(body, at));
    SectionInOrder(body, s, at, own, chunks);
    InOrderJoin(before, own, 0, BytePos(body, at), BytePos(body, at + |s.rendered|));
  }

  lemma ExtendsInOrder(body: Text, init: seq<Section>, last: Section, refs: seq<Reference>, end: nat,
                       from: nat, n: nat, at: nat, chunks: seq<Range>)
    requires Extends(body, init, last, refs, end, from, n, at, chunks)
    requires from <= |body| && InOrder(refs[..n], 0, BytePos(body, from))
    ensures end <= |body| && InOrder(refs, 0, BytePos(body, end))
  {
    hide Encode, InOrder, Matches;
    SectionFollows(body, last, from, at, refs[..n], refs[n..], chunks);
    assert refs == refs[..n] + refs[n..];
  }

  /** Over the whole page the excerpts lie one behind the other, sections included. */
  lemma {:induction false} ReferencesInOrder(body: Text, sections: seq<Section>, refs: seq<Reference>, end: nat)
    requires Indexed(body, sections, refs, end)
    ensures end <= |body| && InOrder(refs, 0, BytePos(body, end))
    decreases |sections|
  {
    if sections != [] {
      var init, last := sections[..|sections| - 1], sections[|sections| - 1];
      if last.quick {
        ReferencesInOrder(body, init, refs, end);
      } else {
        LastExtends(body, sections, refs, end);
      }
    }
  }

  lemma {:induction false} LastExtends(body: Text, sections: seq<Section>, refs: seq<Reference>, end: nat)
    requires Indexed(body, sections, refs, end) && sections != [] && !sections[|sections| - 1].quick
    ensures end <= |body| && InOrder(refs, 0, BytePos(body, end))
    decreases |sections|, 0
  {
    var init, last := sections[..|sections| - 1], sections[|sections| - 1];
    var from: nat, n: nat, at: nat, chunks :| Extends(body, init, last, refs, end, from, n, at, chunks);
    ReferencesInOrder(body, init, refs[..n], from);
    ExtendsInOrder(body, init, last, refs, end, from, n, at, chunks);
  }

  /** No two excerpts of a page overlap, and they are listed in page order. */
  lemma {:induction false} ExcerptsDoNotOverlap(refs: seq<Reference>, from: nat, to: nat, i: nat, j: nat)
    requires InOrder(refs, from, to) && i < j < |refs|
    ensures refs[i].offset + refs[i].length <= refs[j].offset
    decreases |refs|
  {
    var init := refs[..|refs| - 1];
    if j == |refs| - 1 {
      EndsBefore(init, from, refs[j].offset, i);
    } else {
      ExcerptsDoNotOverlap(init, from, refs[|refs| - 1].offset, i, j);
    }
  }

  lemma {:induction false} EndsBefore(refs: seq<Reference>, from: nat, to: nat, i: nat)
    requires InOrder(refs, from, to) && i < |refs|
    ensures refs[i].offset + refs[i].length <= to
    decreases |refs|
  {
    if i < |refs| - 1 {
      EndsBefore(refs[..|refs| - 1], from, refs[|refs| - 1].offset, i);
    }
  }
}
