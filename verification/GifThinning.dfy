/** Storing every n-th frame of an animation within a pixel budget, keeping its playback time. */
module GifThinning {
  import opened Wrappers
  import opened ImageScaling

  const DEFAULT_DELAY: U32 := 100
  const MIN_DELAY: U32 := 20
  const UINT32_MAX: U32 := TWO32 - 1

  function NormalizeDelay(delay: int): (d: U32)
    requires delay < TWO32
    ensures d >= MIN_DELAY
    ensures delay >= 20 ==> d == delay
    ensures 0 < delay < 20 ==> d == 20
    ensures delay <= 0 ==> d == 100
  {
    if delay <= 0 then DEFAULT_DELAY
    else if delay < MIN_DELAY then MIN_DELAY
    else delay
  }

  /** A saturating sum. */
  function AddDelay(current: U32, add: U32): (sum: U32)
    ensures sum == if current + add <= UINT32_MAX then current + add else UINT32_MAX
  {
    if UINT32_MAX - current < add then UINT32_MAX else current + add
  }

  function DivCeil(value: U32, divisor: U32): (q: U32)
    ensures divisor == 0 ==> q == 0
  {
    if divisor == 0 then 0
    else
      CeilFits(value, divisor);
      (value + divisor - 1) / divisor
  }

  lemma CeilFits(value: U32, divisor: U32)
    requires divisor > 0
    ensures 0 <= (value + divisor - 1) / divisor <= value
  {
    if value > 0 {
      MulMonotone(value - 1, 1, divisor);
      DivAtMost(value + divisor - 1, divisor, value);
    }
  }

  /** The least number of steps of length `divisor` that cover `value`. */
  lemma CeilAtMost(value: U32, divisor: U32, m: nat)
    requires divisor > 0
    ensures DivCeil(value, divisor) <= m <==> value <= divisor * m
  {
    var a := value + divisor - 1;
    DivBounds(a, divisor);
    if a / divisor <= m {
      MulMonotone(divisor, a / divisor, m);
    } else {
      MulMonotone(divisor, m + 1, a / divisor);
    }
  }

  // ----- how many frames are kept -----

  datatype Plan = Plan(step: U32, capacity: U32)

  predicate OneFrameFits(framePixels: nat, maxTotal: U32, channels: U32)
    requires channels > 0
  {
    0 < framePixels <= SIZE_MAX / channels && (maxTotal != 0 ==> framePixels <= maxTotal)
  }

  /** How many frames the pixel budget has room for, zero meaning no budget. */
  function Room(scanned: U32, framePixels: nat, maxTotal: U32): (room: U32)
    requires framePixels > 0
  {
    DivAtMost(maxTotal, framePixels, maxTotal);
    if maxTotal == 0 || maxTotal / framePixels > scanned then scanned else maxTotal / framePixels
  }

  function StepFor(scanned: U32, framePixels: nat, maxTotal: U32): U32
    requires framePixels > 0
  {
    DivCeil(scanned, Room(scanned, framePixels, maxTotal))
  }

  lemma QuotientAtMost(a: nat, b: nat, m: nat)
    requires b > 0
    ensures m <= a / b <==> b * m <= a
  {
    DivBounds(a, b);
    if m <= a / b {
      MulMonotone(b, m, a / b);
    } else {
      MulMonotone(b, a / b + 1, m);
    }
  }

  /** It is the least step with which the frames kept stay within the budget. */
  lemma StepIsLeast(scanned: U32, framePixels: nat, maxTotal: U32, s: U32)
    requires scanned > 0 && s > 0 && framePixels > 0 && (maxTotal != 0 ==> framePixels <= maxTotal)
    ensures StepFor(scanned, framePixels, maxTotal) > 0
    ensures StepFor(scanned, framePixels, maxTotal) <= s
       <==> maxTotal == 0 || framePixels * DivCeil(scanned, s) <= maxTotal
  {
    var room, kept := Room(scanned, framePixels, maxTotal), DivCeil(scanned, s);
    assert room > 0 by { QuotientAtMost(maxTotal, framePixels, 1); }
    CeilAtMost(scanned, room, 0);
    CeilAtMost(scanned, room, s);
    CeilAtMost(scanned, s, room);
    assert kept <= scanned by { CeilFits(scanned, s); }
    QuotientAtMost(maxTotal, framePixels, kept);
  }

  /** The pixels of all frames kept stay within the budget, and there is at least one frame. */
  lemma KeptFramesFit(scanned: U32, framePixels: nat, maxTotal: U32)
    requires scanned > 0 && framePixels > 0 && (maxTotal != 0 ==> framePixels <= maxTotal)
    ensures var step := StepFor(scanned, framePixels, maxTotal);
      step > 0 && DivCeil(scanned, step) > 0 && (maxTotal != 0 ==> framePixels * DivCeil(scanned, step) <= maxTotal)
  {
    StepIsLeast(scanned, framePixels, maxTotal, 1);
    var step := StepFor(scanned, framePixels, maxTotal);
    StepIsLeast(scanned, framePixels, maxTotal, step);
    CeilAtMost(scanned, step, 0);
  }

  /**
   The storage plan of an animation; None is the invalid-size error. Once one
   frame fits, only the address space can refuse: the budget never does.
   */
  function PlanFor(scanned: U32, framePixels: nat, maxTotal: U32, channels: U32): Option<Plan>
    requires channels > 0
  {
    if scanned == 0 || !OneFrameFits(framePixels, maxTotal, channels) then None
    else
      var step := StepFor(scanned, framePixels, maxTotal);
      if framePixels * DivCeil(scanned, step) > SIZE_MAX / channels then None
      else Some(Plan(step, DivCeil(scanned, step)))
  }

  method PlanStorage(scanned: U32, framePixels: nat, maxTotal: U32, channels: U32) returns (p: Option<Plan>)
    requires channels in {1, 3} && framePixels < TWO64
    ensures p == PlanFor(scanned, framePixels, maxTotal, channels)
  {
    if framePixels == 0 || framePixels > SIZE_MAX / channels || (maxTotal != 0 && framePixels > maxTotal) {
      return None;
    }
    if scanned > 0 {
      KeptFramesFit(scanned, framePixels, maxTotal);
    }
    var maxStored := scanned;
    if maxTotal != 0 {
      OneFrameHasRoom(framePixels, maxTotal);
      maxStored := Cast32(maxTotal / framePixels);
      if maxStored == 0 {
        assert false;  // a budget for one frame has room for one
      }
      if maxStored > scanned {
        maxStored := scanned;
      }
    }
    assert maxStored == Room(scanned, framePixels, maxTotal);
    var step := DivCeil(scanned, maxStored);
    var capacity := DivCeil(scanned, step);
    var storedPixels := PixelsOf(framePixels, capacity);
    if step == 0 || capacity == 0 || storedPixels == 0 || storedPixels > SIZE_MAX / channels
       || (maxTotal != 0 && storedPixels > maxTotal) {
      return None;
    }
    return Some(Plan(step, capacity));
  }

  lemma OneFrameHasRoom(framePixels: nat, maxTotal: U32)
    requires 0 < framePixels <= maxTotal
    ensures 0 < maxTotal / framePixels < TWO32
  {
    QuotientAtMost(maxTotal, framePixels, 1);
    MulMonotone(maxTotal, 1, framePixels);
    DivAtMost(maxTotal, framePixels, maxTotal);
  }

  /** The 64-bit product of two 32-bit numbers. */
  function PixelsOf(framePixels: U32, capacity: U32): (p: U64)
    ensures p == framePixels * capacity
    ensures framePixels > 0 && capacity > 0 ==> p > 0
  {
    MulBelow(framePixels, capacity);
    if framePixels > 0 && capacity > 0 then MulPositive(framePixels, capacity); framePixels * capacity
    else framePixels * capacity
  }

  // ----- storing and delays -----

  /** A frame as the decoder hands it out. */
  datatype Frame<P> = Frame(width: int, height: int, delay: int, picture: P)

  /** How the decoder's stream of frames ends. */
  datatype Ending = EndOfFile | DecodeError

  datatype Animation<P> = Animation(pictures: seq<P>, delays: seq<U32>)

  predicate SameCanvas<P>(f: Frame<P>, width: U32, height: U32)
    ensures SameCanvas(f, width, height) <==> 0 < f.width == width && 0 < f.height == height
  {
    f.width > 0 && f.height > 0 && f.width == width && f.height == height
  }

  function Delays<P>(frames: seq<Frame<P>>): (ds: seq<U32>)
    requires forall f :: f in frames ==> f.delay < TWO32
    ensures |ds| == |frames|
  {
    seq(|frames|, i requires 0 <= i < |frames| => NormalizeDelay(frames[i].delay))
  }

  function Sum(ds: seq<U32>): nat {
    if ds == [] then 0 else Sum(ds[..|ds| - 1]) + ds[|ds| - 1]
  }

  function Saturated(n: nat): U32 {
    if n <= UINT32_MAX then n else UINT32_MAX
  }

  lemma {:induction false} SumSplit(ds: seq<U32>, i: nat)
    requires i <= |ds|
    ensures Sum(ds) == Sum(ds[..i]) + Sum(ds[i..])
    decreases |ds|
  {
    if i < |ds| {
      SumSplit(ds[..|ds| - 1], i);
      assert ds[..|ds| - 1][..i] == ds[..i];
      assert ds[..|ds| - 1][i..] == ds[i..][..|ds[i..]| - 1];
    } else {
      assert ds[..i] == ds;
    }
  }

  /** The source frame of the j-th stored picture. */
  function StartOf(j: nat, step: nat): nat {
    j * step
  }

  /** The delays of the j-th stored frame and of those dropped after it. */
  function Group(ds: seq<U32>, step: nat, j: nat): seq<U32>
    requires StartOf(j, step) <= |ds|
  {
    if StartOf(j + 1, step) <= |ds| then StartsGrow(j, step); ds[StartOf(j, step)..StartOf(j + 1, step)]
    else ds[StartOf(j, step)..]
  }

  lemma StartsGrow(j: nat, step: nat)
    ensures StartOf(j + 1, step) == StartOf(j, step) + step
  {
  }

  lemma StartsOrdered(i: nat, j: nat, step: nat)
    requires i <= j
    ensures StartOf(i, step) <= StartOf(j, step)
  {
    MulMonotone(step, i, j);
  }

  ghost predicate SmallDelays<P(!new)>(frames: seq<Frame<P>>) {
    forall f :: f in frames ==> f.delay < TWO32
  }

  /** Stored picture j is source frame j * step. */
  ghost predicate PicturesOk<P(!new)>(frames: seq<Frame<P>>, step: nat, pictures: seq<P>, n: nat)
    requires n <= |pictures|
  {
    forall j: nat :: j < n ==> StartOf(j, step) < |frames| && pictures[j] == frames[StartOf(j, step)].picture
  }

  /** Stored delay j is the saturated total of its group. */
  ghost predicate DelaysOk(ds: seq<U32>, step: nat, delays: seq<U32>, n: nat)
    requires n <= |delays|
  {
    forall j: nat :: j < n ==> StartOf(j, step) <= |ds| && delays[j] == Saturated(Sum(Group(ds, step, j)))
  }

  /** Every step-th picture, each shown as long as its whole group. */
  ghost predicate Thinned<P(!new)>(frames: seq<Frame<P>>, step: nat, a: Animation<P>)
    requires SmallDelays(frames)
  {
    && |a.pictures| == |a.delays|
    && |a.delays| > 0 && StartOf(|a.delays| - 1, step) < |frames| <= StartOf(|a.delays|, step)
    && PicturesOk(frames, step, a.pictures, |a.pictures|)
    && DelaysOk(Delays(frames), step, a.delays, |a.delays|)
  }

  // ----- playback time -----

  lemma SumSnoc(ds: seq<U32>, n: nat)
    requires n < |ds|
    ensures Sum(ds[..n + 1]) == Sum(ds[..n]) + ds[n]
  {
    assert ds[..n + 1][..n] == ds[..n];
  }

  function Reach(j: nat, step: nat, n: nat): nat {
    if StartOf(j, step) <= n then StartOf(j, step) else n
  }

  lemma {:induction false} TimeUpTo(ds: seq<U32>, step: nat, delays: seq<U32>, n: nat)
    requires n <= |delays| && DelaysOk(ds, step, delays, |delays|)
    ensures Sum(delays[..n]) <= Sum(ds[..Reach(n, step, |ds|)])
    ensures Sum(delays[..n]) == Sum(ds[..Reach(n, step, |ds|)])
       <==> forall j: nat :: j < n ==> StartOf(j, step) <= |ds| && Sum(Group(ds, step, j)) <= UINT32_MAX
  {
    if n > 0 {
      hide StartOf, Sum, Group, Reach;
      TimeUpTo(ds, step, delays, n - 1);
      SumSnoc(delays, n - 1);
      GroupEnds(ds, step, n);
    }
  }

  lemma GroupEnds(ds: seq<U32>, step: nat, n: nat)
    requires n > 0 && StartOf(n - 1, step) <= |ds|
    ensures Sum(ds[..Reach(n, step, |ds|)]) == Sum(ds[..Reach(n - 1, step, |ds|)]) + Sum(Group(ds, step, n - 1))
  {
    StartsGrow(n - 1, step);
    hide StartOf, Sum;
    var upTo, start := ds[..Reach(n, step, |ds|)], StartOf(n - 1, step);
    SumSplit(upTo, start);
    assert upTo[..start] == ds[..start] && upTo[start..] == Group(ds, step, n - 1);
  }

  /**
   Thinning conserves playback time: the stored delays add up to the normalized
   delays of all frames exactly when no group outgrows its 32-bit field, and
   never to more.
   */
  lemma PlaybackTimeIsKept<P(!new)>(frames: seq<Frame<P>>, step: nat, a: Animation<P>)
    requires SmallDelays(frames) && Thinned(frames, step, a)
    ensures Sum(a.delays) <= Sum(Delays(frames))
    ensures Sum(a.delays) == Sum(Delays(frames))
       <==> forall j: nat :: j < |a.delays| ==>
              StartOf(j, step) <= |frames| && Sum(Group(Delays(frames), step, j)) <= UINT32_MAX
  {
    var ds := Delays(frames);
    TimeUpTo(ds, step, a.delays, |a.delays|);
    assert a.delays[..|a.delays|] == a.delays;
    assert ds[..Reach(|a.delays|, step, |ds|)] == ds;
  }

  // ----- the decode loop -----

  /** After `n` frames: the pictures and delays stored so far and the delay not yet stored. */
  ghost predicate LoopOk<P(!new)>(frames: seq<Frame<P>>, step: nat, n: nat, stored: nat, pending: U32,
                                  pictures: seq<P>, delays: seq<U32>)
    requires SmallDelays(frames)
  {
    && n <= |frames| && stored <= |pictures| == |delays|
    && (n == 0 ==> stored == 0 && pending == 0)
    && (n > 0 ==> stored > 0 && StartOf(stored - 1, step) < n <= StartOf(stored, step)
                  && pending == Saturated(Sum(Delays(frames)[StartOf(stored - 1, step)..n])))
    && PicturesOk(frames, step, pictures, stored)
    && DelaysOk(Delays(frames), step, delays, if stored > 0 then stored - 1 else 0)
  }

  /** The modulo test finds the frames to store. */
  lemma TimeToStore(n: nat, step: nat, stored: nat)
    requires step > 0
    requires (n == 0 && stored == 0) || (stored > 0 && StartOf(stored - 1, step) < n <= StartOf(stored, step))
    ensures n % step == 0 <==> n == StartOf(stored, step)
  {
    if n == StartOf(stored, step) {
      DivUnique(n, step, stored);
    } else {
      StartsGrow(stored - 1, step);
      DivUnique(n, step, stored - 1);
    }
  }

  lemma PendingIsNotZero<P(!new)>(frames: seq<Frame<P>>, from: nat, to: nat)
    requires SmallDelays(frames) && from < to <= |frames|
    ensures Saturated(Sum(Delays(frames)[from..to])) > 0
  {
    var ds := Delays(frames)[from..to];
    assert ds[|ds| - 1] == NormalizeDelay(frames[to - 1].delay);
  }

  /** Storing the delay of the group that ends here. */
  lemma DelayStored<P(!new)>(frames: seq<Frame<P>>, step: nat, n: nat, stored: nat, pending: U32,
                             pictures: seq<P>, delays: seq<U32>)
    requires SmallDelays(frames) && LoopOk(frames, step, n, stored, pending, pictures, delays)
    requires n > 0 && (n == StartOf(stored, step) || n == |frames|)
    ensures pending > 0 && DelaysOk(Delays(frames), step, delays[stored - 1 := pending], stored)
  {
    PendingIsNotZero(frames, StartOf(stored - 1, step), n);
    assert Group(Delays(frames), step, stored - 1) == Delays(frames)[StartOf(stored - 1, step)..n];
  }

  /** A frame that opens a new group. */
  lemma Opens<P(!new)>(frames: seq<Frame<P>>, step: nat, n: nat, stored: nat, pictures: seq<P>, delays: seq<U32>)
    requires SmallDelays(frames) && step > 0 && n < |frames| && stored < |pictures| == |delays|
    requires n == StartOf(stored, step)
    requires PicturesOk(frames, step, pictures, stored) && DelaysOk(Delays(frames), step, delays, stored)
    ensures LoopOk(frames, step, n + 1, stored + 1, AddDelay(0, NormalizeDelay(frames[n].delay)),
                   pictures[stored := frames[n].picture], delays)
  {
    StartsGrow(stored, step);
    var one := Delays(frames)[n..n + 1];
    assert one == [NormalizeDelay(frames[n].delay)] && one[..0] == [];
  }

  /** A frame that joins the open group. */
  lemma Joins<P(!new)>(frames: seq<Frame<P>>, step: nat, n: nat, stored: nat, pending: U32,
                       pictures: seq<P>, delays: seq<U32>)
    requires SmallDelays(frames) && LoopOk(frames, step, n, stored, pending, pictures, delays)
    requires n < |frames| && n > 0 && n != StartOf(stored, step)
    ensures LoopOk(frames, step, n + 1, stored, AddDelay(pending, NormalizeDelay(frames[n].delay)), pictures, delays)
  {
    var from, ds := StartOf(stored - 1, step), Delays(frames);
    assert ds[from..n + 1][..n - from] == ds[from..n];
    assert ds[from..n + 1][n - from] == ds[n];
    SumSnoc(ds[from..n + 1], n - from);
    assert ds[from..n + 1][..n - from + 1] == ds[from..n + 1];
  }

  /** What is stored when the stream has ended is the thinned animation. */
  lemma Finished<P(!new)>(frames: seq<Frame<P>>, step: nat, stored: nat, pictures: seq<P>, delays: seq<U32>)
    requires SmallDelays(frames) && 0 < stored <= |pictures| == |delays|
    requires StartOf(stored - 1, step) < |frames| <= StartOf(stored, step)
    requires PicturesOk(frames, step, pictures, stored) && DelaysOk(Delays(frames), step, delays, stored)
    ensures Thinned(frames, step, Animation(pictures[..stored], delays[..stored]))
  {
  }

  ghost predicate Refused<P(!new)>(frames: seq<Frame<P>>, width: U32, height: U32, step: nat, capacity: nat) {
    (exists f :: f in frames && !SameCanvas(f, width, height)) || StartOf(capacity, step) < |frames|
  }

  /** The first n frames have the scanned canvas. */
  predicate CanvasKept<P(!new)>(frames: seq<Frame<P>>, n: nat, width: U32, height: U32)
    requires n <= |frames|
  {
    forall i :: 0 <= i < n ==> SameCanvas(frames[i], width, height)
  }

  /** A frame that is kept: the delay of the group before it is final, and its picture is stored. */
  method StoreFrame<P(!new)>(frames: seq<Frame<P>>, step: U32, n: nat, stored: nat, pending: U32,
                             pictures: array<P>, delays: array<U32>)
    returns (full: bool)
    requires SmallDelays(frames) && LoopOk(frames, step, n, stored, pending, pictures[..], delays[..])
    requires step > 0 && n < |frames| && n == StartOf(stored, step)
    requires (pictures as object) != (delays as object)
    modifies pictures, delays
    ensures full <==> stored >= delays.Length
    ensures !full ==> LoopOk(frames, step, n + 1, stored + 1, AddDelay(0, NormalizeDelay(frames[n].delay)),
                             pictures[..], delays[..])
  {
    if stored > 0 {
      DelayStored(frames, step, n, stored, pending, pictures[..], delays[..]);
      StoreDelay(delays, stored, pending);
    }
    full := stored >= delays.Length;
    if !full {
      ghost var before := pictures[..];
      Opens(frames, step, n, stored, before, delays[..]);
      pictures[stored] := frames[n].picture;
      assert pictures[..] == before[stored := frames[n].picture];
    }
  }

  /** The decode loop: a frame off the canvas or beyond the capacity is an error, as is a broken stream. */
  method DecodeFrames<P(0,!new)>(frames: seq<Frame<P>>, ending: Ending, width: U32, height: U32,
                                 step: U32, capacity: U32)
    returns (r: Result<Animation<P>, ImageError>)
    requires SmallDelays(frames) && step > 0
    ensures Refused(frames, width, height, step, capacity) <==> r == Failure(InvalidSize)
    ensures !Refused(frames, width, height, step, capacity) ==>
      if ending == DecodeError then r == Failure(DecoderFailed)
      else if frames == [] then r == Failure(NotFound)
      else r.Success? && Thinned(frames, step, r.value)
  {
    var pictures, delays := new P[capacity], new U32[capacity](_ => 0);
    var decoded, stored := 0, 0;
    var pending: U32 := 0;
    while decoded < |frames|
      invariant decoded <= |frames| && stored <= capacity
      invariant LoopOk(frames, step, decoded, stored, pending, pictures[..], delays[..])
      invariant CanvasKept(frames, decoded, width, height)
    {
      var f := frames[decoded];
      if !SameCanvas(f, width, height) {
        return Failure(InvalidSize);
      }
      var delay := NormalizeDelay(f.delay);
      TimeToStore(decoded, step, stored);
      if decoded % step == 0 {
        var full := StoreFrame(frames, step, decoded, stored, pending, pictures, delays);
        if full {
          return Failure(InvalidSize);
        }
        stored, pending := stored + 1, 0;
      } else {
        Joins(frames, step, decoded, stored, pending, pictures[..], delays[..]);
      }
      pending := AddDelay(pending, delay);
      decoded := decoded + 1;
    }
    StartsOrdered(stored, capacity, step);
    if ending == DecodeError {
      return Failure(DecoderFailed);
    }
    if decoded == 0 || stored == 0 {
      return Failure(NotFound);
    }
    DelayStored(frames, step, decoded, stored, pending, pictures[..], delays[..]);
    StoreDelay(delays, stored, pending);
    Finished(frames, step, stored, pictures[..], delays[..]);
    assert pictures[..stored] == pictures[..][..stored] && delays[..stored] == delays[..][..stored];
    r := Success(Animation(pictures[..stored], delays[..stored]));
  }

  method StoreDelay(delays: array<U32>, stored: nat, pending: U32)
    requires 0 < stored <= delays.Length
    modifies delays
    ensures delays[..] == old(delays[..])[stored - 1 := if pending != 0 then pending else DEFAULT_DELAY]
  {
    delays[stored - 1] := if pending != 0 then pending else DEFAULT_DELAY;
  }

  // ----- the whole decoder -----

  /** A stream with no more frames than were scanned is never refused for lack of room. */
  lemma ScannedFramesHaveRoom<P(!new)>(frames: seq<Frame<P>>, scanned: U32, framePixels: nat, maxTotal: U32,
                                       channels: U32, width: U32, height: U32)
    requires channels > 0 && PlanFor(scanned, framePixels, maxTotal, channels).Some?
    requires |frames| <= scanned && forall f :: f in frames ==> SameCanvas(f, width, height)
    ensures var plan := PlanFor(scanned, framePixels, maxTotal, channels).value;
      plan.step > 0 && !Refused(frames, width, height, plan.step, plan.capacity)
  {
    KeptFramesFit(scanned, framePixels, maxTotal);
    var step := StepFor(scanned, framePixels, maxTotal);
    CeilAtMost(scanned, step, DivCeil(scanned, step));
  }

  /** Whatever is stored lies within the capacity, hence within the pixel budget. */
  lemma StoredFramesFit<P(!new)>(frames: seq<Frame<P>>, a: Animation<P>, scanned: U32, framePixels: nat,
                                 maxTotal: U32, channels: U32)
    requires SmallDelays(frames) && channels > 0 && PlanFor(scanned, framePixels, maxTotal, channels).Some?
    requires var plan := PlanFor(scanned, framePixels, maxTotal, channels).value;
      |frames| <= StartOf(plan.capacity, plan.step) && Thinned(frames, plan.step, a)
    ensures |a.pictures| <= PlanFor(scanned, framePixels, maxTotal, channels).value.capacity
    ensures framePixels * |a.pictures| <= SIZE_MAX / channels
    ensures maxTotal != 0 ==> framePixels * |a.pictures| <= maxTotal
    ensures maxTotal == 0 ==> |a.pictures| == |frames|
  {
    KeptFramesFit(scanned, framePixels, maxTotal);
    var plan := PlanFor(scanned, framePixels, maxTotal, channels).value;
    MulMonotone(framePixels, |a.pictures|, plan.capacity);
    if maxTotal == 0 {
      CeilAtMost(scanned, scanned, 1);
      assert plan.step == 1;
    }
  }

  /** solar_os_stb_decode_gif behind a decoder. */
  method DecodeGif<P(0,!new)>(frames: seq<Frame<P>>, ending: Ending, scanWidth: U32, scanHeight: U32, scanned: U32,
                              maxFrame: U32, maxTotal: U32, maxWidth: U32, maxHeight: U32, channels: U32)
    returns (r: Result<Animation<P>, ImageError>, width: U32, height: U32)
    requires SmallDelays(frames) && channels in {1, 3}
    ensures SizeRefused(scanWidth * scanHeight, maxFrame) ==> r == Failure(InvalidSize) && width == height == 0
    ensures !SizeRefused(scanWidth * scanHeight, maxFrame) ==>
      if AllPositive(scanWidth, scanHeight, maxWidth, maxHeight)
      then Fitted(scanWidth, scanHeight, maxWidth, maxHeight, width, height)
      else width == scanWidth && height == scanHeight
    ensures !SizeRefused(scanWidth * scanHeight, maxFrame) ==>
      match PlanFor(scanned, width * height, maxTotal, channels)
      case None => r == Failure(InvalidSize)
      case Some(plan) =>
        if Refused(frames, scanWidth, scanHeight, plan.step, plan.capacity) then r == Failure(InvalidSize)
        else if ending == DecodeError then r == Failure(DecoderFailed)
        else if frames == [] then r == Failure(NotFound)
        else r.Success? && Thinned(frames, plan.step, r.value)
  {
    width, height := 0, 0;
    MulBelow(scanWidth, scanHeight);
    if SizeRefused(scanWidth * scanHeight, maxFrame) {
      return Failure(InvalidSize), 0, 0;
    }
    width, height := FitDimensions(scanWidth, scanHeight, maxWidth, maxHeight);
    var framePixels := PixelsOf(width, height);
    var plan := PlanStorage(scanned, framePixels, maxTotal, channels);
    if plan.None? {
      return Failure(InvalidSize), width, height;
    }
    PlansStep(scanned, framePixels, maxTotal, channels);
    r := DecodeFrames(frames, ending, scanWidth, scanHeight, plan.value.step, plan.value.capacity);
  }

  /**
   What the plan is: every step-th frame is kept, as many as that takes to get through all of them. There is none
   only without frames, without pixels, if one frame is over the budget, or if the frames kept need too many bytes.
   */
  lemma PlansMean(scanned: U32, framePixels: nat, maxTotal: U32, channels: U32)
    requires channels > 0
    ensures match PlanFor(scanned, framePixels, maxTotal, channels)
      case Some(plan) =>
        && plan.step > 0 && plan.capacity > 0 && (plan.capacity - 1) * plan.step < scanned <= plan.capacity * plan.step
        && (framePixels * plan.capacity) * channels <= SIZE_MAX
        && (maxTotal != 0 ==> framePixels * plan.capacity <= maxTotal)
      case None =>
        || scanned == 0 || framePixels == 0 || (maxTotal != 0 && framePixels > maxTotal)
        || (framePixels * DivCeil(scanned, StepFor(scanned, framePixels, maxTotal))) * channels > SIZE_MAX
  {
    hide StepFor, DivCeil;
    if framePixels > 0 {
      FitsAddresses(framePixels, channels);
      if scanned > 0 && (maxTotal != 0 ==> framePixels <= maxTotal) {
        KeptFramesFit(scanned, framePixels, maxTotal);
        var step := StepFor(scanned, framePixels, maxTotal);
        var kept := DivCeil(scanned, step);
        KeptCover(scanned, step);
        FitsAddresses(framePixels * kept, channels);
        MulMonotone(framePixels, 1, kept);
      }
    }
  }

  lemma KeptCover(scanned: U32, step: U32)
    requires step > 0 && DivCeil(scanned, step) > 0
    ensures var kept := DivCeil(scanned, step); (kept - 1) * step < scanned <= kept * step
  {
    var kept := DivCeil(scanned, step);
    hide DivCeil;
    CeilAtMost(scanned, step, kept);
    CeilAtMost(scanned, step, kept - 1);
    MulCommutes(step, kept);
    MulCommutes(step, kept - 1);
  }

  lemma FitsAddresses(pixels: nat, channels: U32)
    requires channels > 0
    ensures pixels <= SIZE_MAX / channels <==> pixels * channels <= SIZE_MAX
  {
    QuotientAtMost(SIZE_MAX, channels, pixels);
    MulCommutes(pixels, channels);
  }

  lemma PlansStep(scanned: U32, framePixels: nat, maxTotal: U32, channels: U32)
    requires channels > 0 && PlanFor(scanned, framePixels, maxTotal, channels).Some?
    ensures PlanFor(scanned, framePixels, maxTotal, channels).value.step > 0
  {
    KeptFramesFit(scanned, framePixels, maxTotal);
  }
}
