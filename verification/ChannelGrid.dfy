/** utils/lib/rr_graph/channel.py, class ChannelGrid: the first-fit allocator of tracks to channel
    positions. */
module ChannelGrids {
  import opened Sequences

  datatype ChanType = X | Y

  datatype Direction = Inc | Dec | Bi

  datatype Position = Position(x: int, y: int)

  /** idx is None until the track is placed; a hint settles the type of a track of one position. */
  datatype Track = Track(start: Position, end: Position, direction: Direction, segmentId: int, name: string,
    idx: Option<nat>, hint: Option<ChanType>)

  /** The tracks at one position, by index. */
  type Entry = seq<Option<Track>>

  /** How create_track ends: with a track, or in one of the source's errors. */
  datatype Outcome =
    | Created(track: Track) | PlacedBefore | OutOfGrid | WrongType | NotStraight | UnevenChannel | Occupied

  function TypeGuess(t: Track): Option<ChanType> {
    if t.start == t.end then None else if t.start.x == t.end.x then Some(Y) else Some(X)
  }

  function Along(p: Position, chan: ChanType): int { if chan == X then p.x else p.y }
  function Across(p: Position, chan: ChanType): int { if chan == X then p.y else p.x }
  function At(chan: ChanType, along: int, across: int): Position {
    if chan == X then Position(along, across) else Position(across, along)
  }

  /** abs(end0 - start0), 0 where the type is ambiguous. */
  function Length(t: Track): int {
    var typ := if t.hint.Some? then t.hint else TypeGuess(t);
    if typ.None? then 0 else Max(Along(t.end, typ.value) - Along(t.start, typ.value),
      Along(t.start, typ.value) - Along(t.end, typ.value))
  }

  // ----- one channel: a row or column of entries -----

  type Slice = seq<Entry>

  /** Index i is free at positions s to e. */
  ghost predicate Free(c: Slice, s: nat, e: nat, i: nat) {
    forall p :: s <= p <= e && p < |c| && i < |c[p]| ==> c[p][i] == None
  }

  ghost predicate Even(c: Slice, w: nat) { forall p :: 0 <= p < |c| ==> |c[p]| == w }

  function Padded(p: Entry, n: nat): (r: Entry)
    ensures |r| == if |p| < n then n else |p|
    ensures forall i :: 0 <= i < |r| ==> r[i] == if i < |p| then p[i] else None
  {
    if |p| >= n then p else Padded(p, n - 1) + [None]
  }

  /** The least free index. */
  ghost predicate IsFirstFit(c: Slice, s: nat, e: nat, i: nat) {
    Free(c, s, e, i) && forall j :: 0 <= j < i ==> !Free(c, s, e, j)
  }

  /** An unforced search never goes past the current width. */
  lemma FirstFitBound(c: Slice, s: nat, e: nat, i: nat, w: nat)
    requires Even(c, w) && IsFirstFit(c, s, e, i)
    ensures i <= w
  {
    assert Free(c, s, e, w);
  }

  /** The channel with the track put in. */
  ghost predicate Placed(c: Slice, s: nat, e: nat, i: nat, t: Track, now: Slice) {
    |now| == |c|
    && forall p :: 0 <= p < |c| ==>
      |now[p]| == Max(|c[p]|, i + 1)
      && forall j :: 0 <= j < |now[p]| ==>
        now[p][j] == if j == i && s <= p <= e then Some(t) else if j < |c[p]| then c[p][j] else None
  }

  /** The channel with some positions padded, to n entries at most. */
  ghost predicate Grown(c: Slice, n: nat, now: Slice) {
    |now| == |c|
    && forall p :: 0 <= p < |c| ==> |c[p]| <= |now[p]| <= Max(|c[p]|, n) && now[p] == Padded(c[p], |now[p]|)
  }

  lemma PadTwice(p: Entry, m: nat, n: nat)
    requires m <= n
    ensures Padded(Padded(p, m), n) == Padded(p, n)
  {
  }

  /** The inner loop: does the track fit at one index? */
  method TryIndex(c: Slice, s: nat, e: nat, idx: nat, ghost c0: Slice) returns (fits: bool, c': Slice)
    requires s <= e < |c| && Grown(c0, idx + 1, c)
    ensures fits <==> Free(c0, s, e, idx)
    ensures Grown(c0, idx + 1, c')
    ensures forall p :: 0 <= p < |c| && idx < |c0[p]| ==> c'[p] == c[p]
  {
    c' := c;
    for p := s to e + 1
      invariant Grown(c0, idx + 1, c') && forall q :: s <= q < p && idx < |c0[q]| ==> c0[q][idx] == None
      invariant forall q :: 0 <= q < |c| && idx < |c0[q]| ==> c'[q] == c[q]
    {
      PadTwice(c0[p], |c'[p]|, Max(|c'[p]|, idx + 1));
      c' := c'[p := Padded(c'[p], idx + 1)];
      if c'[p][idx] != None {
        return false, c';
      }
    }
    fits := true;
  }

  /** The outer loop: the forced index, or the first that fits. */
  method Search(c: Slice, s: nat, e: nat, force: Option<nat>, ghost w: nat) returns (r: Option<nat>, c': Slice)
    requires s <= e < |c| && Even(c, w)
    ensures r.None? <==> force.Some? && !Free(c, s, e, force.value)
    ensures r.None? ==> c' == c
    ensures r.Some? ==> Grown(c, r.value + 1, c') && if force.Some? then r == force else IsFirstFit(c, s, e, r.value)
  {
    var idx := if force.Some? then force.value else 0;
    c' := c;
    while true
      invariant Grown(c, idx + 1, c')
      invariant force.Some? ==> idx == force.value && c' == c
      invariant force.None? ==> idx <= w && forall j :: 0 <= j < idx ==> !Free(c, s, e, j)
      decreases w - idx
    {
      ghost var before := c';
      var fits;
      fits, c' := TryIndex(c', s, e, idx, c);
      if fits {
        return Some(idx), c';
      }
      assert idx < w;
      if force.Some? {
        assert c' == c;
        return None, c';
      }
      idx := idx + 1;
    }
  }

  /** Everything at the same length, then the track at its positions. */
  method PutIn(c: Slice, s: nat, e: nat, t: Track, ghost c0: Slice) returns (c': Slice)
    requires t.idx.Some? && s <= e < |c| && Grown(c0, t.idx.value + 1, c)
    ensures Placed(c0, s, e, t.idx.value, t, c')
  {
    var i := t.idx.value;
    c' := c;
    for p := 0 to |c|
      invariant |c'| == |c|
      invariant forall q :: 0 <= q < p ==> c'[q] == Padded(c0[q], i + 1)
      invariant forall q :: p <= q < |c| ==> c'[q] == c[q]
    {
      PadTwice(c0[p], |c[p]|, Max(|c[p]|, i + 1));
      c' := c'[p := Padded(c'[p], i + 1)];
    }
    for p := s to e + 1
      invariant |c'| == |c|
      invariant forall q :: 0 <= q < |c| ==>
        c'[q] == if s <= q < p then Padded(c0[q], i + 1)[i := Some(t)] else Padded(c0[q], i + 1)
    {
      c' := c'[p := c'[p][i := Some(t)]];
    }
  }

  // ----- the grid -----

  /** The track lies along the channel at its own coordinate across. */
  predicate Covers(t: Track, p: Position, chan: ChanType) {
    Across(p, chan) == Across(t.start, chan)
    && Min(Along(t.start, chan), Along(t.end, chan)) <= Along(p, chan) <= Max(Along(t.start, chan), Along(t.end, chan))
  }

  type Cells = map<Position, Entry>

  ghost predicate OnEntry(cells: Cells, p: Position, i: nat, t: Track) {
    p in cells && i < |cells[p]| && cells[p][i] == Some(t)
  }

  /** The track has this index and stands at it on its whole span. */
  ghost predicate StandsAt(cells: Cells, chan: ChanType, t: Track, p: Position, i: nat) {
    t.idx == Some(i) && Covers(t, p, chan) && forall q :: Covers(t, q, chan) ==> OnEntry(cells, q, i, t)
  }

  /** Every track in the grid stands at its own index on its whole span, and nowhere else. */
  ghost predicate WellPlaced(cells: Cells, chan: ChanType) {
    forall p, i, t :: OnEntry(cells, p, i, t) ==> StandsAt(cells, chan, t, p, i)
  }

  /** What putting a track in does to each entry. */
  ghost predicate PutAt(before: Cells, chan: ChanType, t: Track, i: nat, now: Cells, p: Position)
    requires p in before && p in now
  {
    if Across(p, chan) != Across(t.start, chan) then now[p] == before[p]
    else
      |now[p]| == Max(|before[p]|, i + 1)
      && forall j :: 0 <= j < |now[p]| ==>
        now[p][j] == if j == i && Covers(t, p, chan) then Some(t) else if j < |before[p]| then before[p][j] else None
  }

  /** Putting a track where its span was free disturbs no other track. */
  lemma PuttingKeeps(before: Cells, chan: ChanType, t: Track, i: nat, now: Cells)
    requires WellPlaced(before, chan) && before.Keys == now.Keys && t.idx == Some(i)
    requires forall p :: p in before ==> PutAt(before, chan, t, i, now, p)
    requires forall p :: Covers(t, p, chan) ==> p in before && (i < |before[p]| ==> before[p][i] == None)
    ensures WellPlaced(now, chan)
  {
    forall p, j, u | OnEntry(now, p, j, u) ensures StandsAt(now, chan, u, p, j) {
      assert PutAt(before, chan, t, i, now, p);
      if j == i && Covers(t, p, chan) {
        forall q | Covers(t, q, chan) ensures OnEntry(now, q, i, t) { assert PutAt(before, chan, t, i, now, q); }
      } else {
        assert OnEntry(before, p, j, u);
        forall q | Covers(u, q, chan) ensures OnEntry(now, q, j, u) {
          assert OnEntry(before, q, j, u);
          assert PutAt(before, chan, t, i, now, q);
        }
      }
    }
  }

  /** The channel stays even, and an unforced track widens it by one at most. */
  lemma PlacedEven(c: Slice, s: nat, e: nat, i: nat, t: Track, now: Slice, w: nat)
    requires Even(c, w) && Placed(c, s, e, i, t, now)
    ensures Even(now, Max(w, i + 1))
    ensures IsFirstFit(c, s, e, i) ==> i <= w
  {
    if IsFirstFit(c, s, e, i) { FirstFitBound(c, s, e, i, w); }
  }

  ghost predicate HasSlice(cells: Cells, chan: ChanType, len: nat, n: nat) {
    forall a :: 0 <= a < len ==> At(chan, a, n) in cells
  }

  /** Row or column n. */
  function SliceFrom(cells: Cells, chan: ChanType, len: nat, n: nat): (c: Slice)
    requires HasSlice(cells, chan, len, n)
    ensures |c| == len
  {
    seq(len, a requires 0 <= a < len && HasSlice(cells, chan, len, n) => cells[At(chan, a, n)])
  }

  ghost predicate EvenAt(cells: Cells, chan: ChanType, len: nat, n: nat) {
    HasSlice(cells, chan, len, n) && exists w :: Even(SliceFrom(cells, chan, len, n), w)
  }

  /** The track is put into channel n, and no other channel changes. */
  ghost predicate MadeIn(before: Cells, chan: ChanType, len: nat, n: nat, s: nat, e: nat, i: nat, t: Track,
      now: Cells)
  {
    before.Keys == now.Keys && HasSlice(before, chan, len, n)
    && Placed(SliceFrom(before, chan, len, n), s, e, i, t, SliceFrom(now, chan, len, n))
    && forall p :: p in now && Across(p, chan) != n ==> now[p] == before[p]
  }

  lemma MadeStaysEven(before: Cells, chan: ChanType, len: nat, n: nat, s: nat, e: nat, i: nat, t: Track, now: Cells,
      m: nat)
    requires MadeIn(before, chan, len, n, s, e, i, t, now) && EvenAt(before, chan, len, n)
      && EvenAt(before, chan, len, m)
    ensures EvenAt(now, chan, len, m)
  {
    if m == n {
      var w :| Even(SliceFrom(before, chan, len, n), w);
      PlacedEven(SliceFrom(before, chan, len, n), s, e, i, t, SliceFrom(now, chan, len, n), w);
    } else {
      forall a | 0 <= a < len ensures now[At(chan, a, m)] == before[At(chan, a, m)] {
        assert At(chan, a, m) in now && Across(At(chan, a, m), chan) == m;
      }
      assert SliceFrom(now, chan, len, m) == SliceFrom(before, chan, len, m);
    }
  }

  lemma MadeIsPut(before: Cells, chan: ChanType, len: nat, n: nat, s: nat, e: nat, i: nat, t: Track, now: Cells,
      p: Position)
    requires MadeIn(before, chan, len, n, s, e, i, t, now) && p in before && 0 <= Along(p, chan) < len
    requires Across(t.start, chan) == n
    requires s == Min(Along(t.start, chan), Along(t.end, chan)) && e == Max(Along(t.start, chan), Along(t.end, chan))
    ensures PutAt(before, chan, t, i, now, p)
  {
    if Across(p, chan) == n {
      var a := Along(p, chan);
      assert At(chan, a, n) == p;
      assert SliceFrom(before, chan, len, n)[a] == before[p] && SliceFrom(now, chan, len, n)[a] == now[p];
      assert Covers(t, p, chan) <==> s <= a <= e;
    }
  }

  /** The least and the greatest of the widths, None for no width at all. */
  ghost predicate Bounds(least: Option<nat>, greatest: Option<nat>, widths: seq<nat>) {
    && (widths == [] ==> least == None && greatest == None)
    && (widths != [] ==> least.Some? && greatest.Some? && least.value in widths && greatest.value in widths)
    && forall n :: 0 <= n < |widths| ==> least.Some? && greatest.Some? && least.value <= widths[n] <= greatest.value
  }

  class ChannelGrid {
    const chan: ChanType
    const width: nat
    const height: nat
    var cells: map<Position, Entry>

    constructor (width: nat, height: nat, chan: ChanType)
      ensures Complete() && this.width == width && this.height == height && this.chan == chan
      ensures forall p :: p in cells ==> cells[p] == []
    {
      this.width, this.height, this.chan := width, height, chan;
      cells := map[];
      new;
      Clear();
    }

    /** Removes all tracks: every position of the grid is an entry of width 0. */
    method Clear()
      requires forall p :: p in cells ==> 0 <= p.x < width && 0 <= p.y < height
      modifies this
      ensures Complete() && forall p :: p in cells ==> cells[p] == []
    {
      for x := 0 to width
        invariant forall p: Position :: p in cells ==> 0 <= p.x < width && 0 <= p.y < height
        invariant forall p: Position :: 0 <= p.x < x && 0 <= p.y < height ==> p in cells && cells[p] == []
      {
        for y := 0 to height
          invariant forall p: Position :: p in cells ==> 0 <= p.x < width && 0 <= p.y < height
          invariant forall p: Position :: (0 <= p.x < x && 0 <= p.y < height) || (p.x == x && 0 <= p.y < y) ==>
            p in cells && cells[p] == []
        {
          cells := cells[Position(x, y) := []];
        }
      }
    }

    ghost predicate Complete()
      reads this
    {
      forall p: Position :: p in cells <==> 0 <= p.x < width && 0 <= p.y < height
    }

    function ChannelCount(): nat { if chan == X then height else width }
    function ChannelLength(): nat { if chan == X then width else height }

    function SliceOf(n: nat): (c: Slice)
      requires Complete() && n < ChannelCount()
      reads this
      ensures |c| == ChannelLength()
    {
      SliceFrom(cells, chan, ChannelLength(), n)
    }

    ghost predicate UniformAt(n: nat)
      requires Complete() && n < ChannelCount()
      reads this
    {
      EvenAt(cells, chan, ChannelLength(), n)
    }

    /** All positions of a channel have the same width. */
    ghost predicate Uniform()
      requires Complete()
      reads this
    {
      forall n :: 0 <= n < ChannelCount() ==> UniformAt(n)
    }

    /** validate_pos: in the grid, and not at the start of the channel. */
    predicate ValidPos(p: Position) {
      0 <= p.x < width && 0 <= p.y < height && Along(p, chan) != 0
    }

    /** assert_len_eq. */
    method LenEq(c: Slice) returns (ok: bool)
      ensures ok <==> exists w :: Even(c, w)
    {
      for p := 0 to |c|
        invariant forall q :: 0 <= q < p ==> |c[q]| == |c[0]|
      {
        if |c[p]| != |c[0]| {
          return false;
        }
      }
      assert |c| > 0 ==> Even(c, |c[0]|);
      assert |c| == 0 ==> Even(c, 0);
      return true;
    }

    /** Writes a row or column back. */
    method StoreSlice(n: nat, c: Slice)
      requires Complete() && n < ChannelCount() && |c| == ChannelLength()
      modifies this
      ensures Complete() && SliceOf(n) == c
      ensures forall p :: p in cells && Across(p, chan) != n ==> p in old(cells) && cells[p] == old(cells)[p]
    {
      cells := map p | p in cells :: if Across(p, chan) == n then c[Along(p, chan)] else cells[p];
    }

    /** The type the track is taken for once the grid has settled it. */
    function Settled(t: Track): Track {
      if TypeGuess(t) != Some(chan) then t.(hint := Some(chan)) else t
    }

    /** What is checked before any index is looked for. */
    function Refusal(t: Track): Option<Outcome> {
      if t.idx.Some? then Some(PlacedBefore)
      else if !ValidPos(t.start) || !ValidPos(t.end) then Some(OutOfGrid)
      else if TypeGuess(t) != Some(chan) && Length(t) != 0 then Some(WrongType)
      else if (Settled(t).hint.Some? && Settled(t).hint != Some(chan))
        || Across(t.start, chan) != Across(t.end, chan) then Some(NotStraight)
      else None
    }

    /** The track was not placed before, its ends are in the grid, past the start of the channel and in one channel,
        and no hint says otherwise; of a track of one position the hint does not matter. */
    predicate Acceptable(t: Track) {
      && t.idx == None
      && 0 <= t.start.x < width && 0 <= t.start.y < height && 0 <= t.end.x < width && 0 <= t.end.y < height
      && (chan == X ==> t.start.x != 0 && t.end.x != 0 && t.start.y == t.end.y)
      && (chan == Y ==> t.start.y != 0 && t.end.y != 0 && t.start.x == t.end.x)
      && (t.start == t.end || t.hint == None || t.hint == Some(chan))
    }

    lemma AcceptedMeans(t: Track)
      ensures Refusal(t).None? <==> Acceptable(t)
      ensures Refusal(t) == Some(PlacedBefore) <==> t.idx.Some?
      ensures Refusal(t).Some? ==> Refusal(t).value in {PlacedBefore, OutOfGrid, WrongType, NotStraight}
      ensures Refusal(t).None? ==> Settled(t) == t.(hint := if t.start == t.end then Some(chan) else t.hint)
    {
    }

    lemma AcceptedIn(t: Track)
      requires Refusal(t).None?
      ensures 0 <= Across(t.start, chan) < ChannelCount() && Across(t.end, chan) == Across(t.start, chan)
      ensures 0 <= Along(t.start, chan) < ChannelLength() && 0 <= Along(t.end, chan) < ChannelLength()
    {
    }

    function Low(t: Track): int { Min(Along(t.start, chan), Along(t.end, chan)) }
    function High(t: Track): int { Max(Along(t.start, chan), Along(t.end, chan)) }

    /** The forced index is taken somewhere on the span. */
    ghost predicate Blocked(c: Slice, t: Track, force: Option<nat>)
      requires Refusal(t).None?
    {
      AcceptedIn(t);
      force.Some? && !Free(c, Low(t), High(t), force.value)
    }

    /** The track is the given one at the forced or first fitting index, its channel is the old one with
        the track put in, and the other channels are as they were. */
    ghost predicate Made(before: map<Position, Entry>, c: Slice, t: Track, force: Option<nat>, track: Track)
      requires Complete() && Refusal(t).None?
      reads this
    {
      AcceptedIn(t);
      && track.idx.Some? && track == Settled(t).(idx := track.idx)
      && (if force.Some? then track.idx == force else IsFirstFit(c, Low(t), High(t), track.idx.value))
      && Placed(c, Low(t), High(t), track.idx.value, track, SliceOf(Across(t.start, chan)))
      && forall p :: p in cells && Across(p, chan) != Across(t.start, chan) ==> p in before && cells[p] == before[p]
    }

    /** The least index free over the whole span, or the forced one; its channel grows to hold it, nothing
        else changes. On any error the grid is as it was. */
    method CreateTrack(t: Track, force: Option<nat>) returns (r: Outcome)
      requires Complete()
      modifies this
      ensures Complete()
      ensures !r.Created? ==> cells == old(cells)
      ensures old(Uniform()) ==> Uniform()
      ensures old(Uniform()) && old(WellPlaced(cells, chan)) ==> WellPlaced(cells, chan)
      ensures Refusal(t).Some? ==> r == Refusal(t).value
      ensures Refusal(t).None? && !old(UniformAt(Across(t.start, chan))) ==> r == UnevenChannel
      ensures Refusal(t).None? && old(UniformAt(Across(t.start, chan))) ==>
        (r == Occupied <==> Blocked(old(SliceOf(Across(t.start, chan))), t, force))
      ensures Refusal(t).None? && old(UniformAt(Across(t.start, chan))) && r != Occupied ==>
        r.Created? && Made(old(cells), old(SliceOf(Across(t.start, chan))), t, force, r.track)
      // In an even grid exactly these tracks get an index or find the forced one taken.
      ensures old(Uniform()) ==> (r.Created? || r == Occupied <==> Acceptable(t))
      ensures r == Occupied ==> force.Some?
      ensures r.Created? ==>
        r.track == t.(idx := r.track.idx, hint := if t.start == t.end then Some(chan) else t.hint)
    {
      hide WellPlaced, Grown, Placed, SliceFrom, Acceptable;
      AcceptedMeans(t);
      var refused := Refusal(t);
      if refused.Some? {
        return refused.value;
      }
      AcceptedIn(t);
      var n := Across(t.start, chan);
      var c := SliceOf(n);
      var even := LenEq(c);
      if !even {
        return UnevenChannel;
      }
      ghost var w: nat :| Even(c, w);
      var s, e := Low(t), High(t);
      var idx, grown := Search(c, s, e, force, w);
      if idx.None? {
        return Occupied;
      }
      var placed := Settled(t).(idx := idx);
      var c' := PutIn(grown, s, e, placed, c);
      StoreSlice(n, c');
      MadeKeeps(old(cells), t, force, placed);
      hide EvenAt, WellPlaced, Made, Placed, IsFirstFit, Free;
      forall m: nat | old(Uniform()) && m < ChannelCount() ensures UniformAt(m) { assert old(UniformAt(m)); }
      return Created(placed);
    }

    lemma MadeKeeps(before: Cells, t: Track, force: Option<nat>, track: Track)
      requires Complete() && Refusal(t).None? && before.Keys == cells.Keys
      requires 0 <= Across(t.start, chan) < ChannelCount()
        && EvenAt(before, chan, ChannelLength(), Across(t.start, chan))
      requires var c := SliceFrom(before, chan, ChannelLength(), Across(t.start, chan));
        Made(before, c, t, force, track) && !Blocked(c, t, force)
      ensures forall m: nat :: EvenAt(before, chan, ChannelLength(), m) ==> EvenAt(cells, chan, ChannelLength(), m)
      ensures WellPlaced(before, chan) ==> WellPlaced(cells, chan)
    {
      var n, len, i := Across(t.start, chan), ChannelLength(), track.idx.value;
      var c := SliceFrom(before, chan, len, n);
      AcceptedIn(t);
      assert MadeIn(before, chan, len, n, Low(t), High(t), i, track, cells);
      forall m: nat | EvenAt(before, chan, len, m) ensures EvenAt(cells, chan, len, m) {
        MadeStaysEven(before, chan, len, n, Low(t), High(t), i, track, cells, m);
      }
      if WellPlaced(before, chan) {
        forall p | p in before ensures PutAt(before, chan, track, i, cells, p) {
          MadeIsPut(before, chan, len, n, Low(t), High(t), i, track, cells, p);
        }
        forall p | Covers(track, p, chan) ensures p in before && (i < |before[p]| ==> before[p][i] == None) {
          assert At(chan, Along(p, chan), n) == p && SliceFrom(before, chan, len, n)[Along(p, chan)] == before[p];
        }
        PuttingKeeps(before, chan, track, i, cells);
      }
    }

    // ----- filling up -----

    /** foreach_position: the positions that can hold a track, row by row. */
    ghost predicate Inner(p: Position)
      reads this
    {
      p in cells && Along(p, chan) >= 1
    }

    /** The track fill_empty puts into an empty entry. */
    function Filler(p: Position, segmentId: int, name: string): Track {
      Track(p, p, Bi, segmentId, name, None, Some(chan))
    }

    /** One empty entry filled: nothing else changes. */
    method FillOne(p: Position, i: nat, segmentId: int, name: string) returns (track: Track)
      requires Complete() && Uniform() && Inner(p) && i < |cells[p]| && cells[p][i] == None
      modifies this
      ensures Complete() && Uniform() && (old(WellPlaced(cells, chan)) ==> WellPlaced(cells, chan))
      ensures track == Filler(p, segmentId, name).(idx := Some(i))
      ensures cells == old(cells)[p := old(cells)[p][i := Some(track)]]
    {
      var t := Filler(p, segmentId, name);
      var n, a := Across(p, chan), Along(p, chan);
      ghost var before, c := cells, SliceOf(n);
      assert UniformAt(n);
      assert At(chan, a, n) == p && c[a] == cells[p];
      var r := CreateTrack(t, Some(i));
      track := r.track;
      assert MadeIn(before, chan, ChannelLength(), n, a, a, i, track, cells);
      ghost var w: nat :| Even(c, w);
      hide WellPlaced, Uniform;
      forall q | q in cells ensures cells[q] == if q == p then before[p][i := Some(track)] else before[q] {
        MadeIsPut(before, chan, ChannelLength(), n, a, a, i, track, cells, q);
        if Across(q, chan) == n { assert At(chan, Along(q, chan), n) == q && c[Along(q, chan)] == before[q]; }
      }
    }

    /** The entries up to index c of a position hold a filler where they were empty. */
    ghost predicate FilledUpTo(before: Cells, p: Position, c: nat, segmentId: int, name: string)
      requires p in before && p in cells
      reads this
    {
      |cells[p]| == |before[p]|
      && forall i :: 0 <= i < |cells[p]| ==>
        cells[p][i] == if i < c && before[p][i] == None then Some(Filler(p, segmentId, name).(idx := Some(i)))
          else before[p][i]
    }

    /** The tracks are the fillers of all entries that have been filled. */
    ghost predicate ListsFillers(before: Cells, tracks: seq<Track>)
      reads this
    {
      forall t :: t in tracks <==>
        exists p, i :: p in before && 0 <= i < |before[p]| && before[p][i] == None && OnEntry(cells, p, i, t)
    }

    /** One position, entry by entry. */
    method FillPosition(p: Position, segmentId: int, name: string, tracks: seq<Track>, ghost before: Cells)
        returns (tracks': seq<Track>)
      requires Complete() && Uniform() && Inner(p) && before.Keys == cells.Keys
      requires FilledUpTo(before, p, 0, segmentId, name) && ListsFillers(before, tracks)
      modifies this
      ensures Complete() && Uniform() && (old(WellPlaced(cells, chan)) ==> WellPlaced(cells, chan))
      ensures before.Keys == cells.Keys
        && (forall q :: q in cells && q != p ==> q in old(cells) && cells[q] == old(cells)[q])
      ensures FilledUpTo(before, p, |before[p]|, segmentId, name) && ListsFillers(before, tracks')
    {
      hide WellPlaced, Uniform;
      tracks' := tracks;
      for i := 0 to |cells[p]|
        invariant Complete() && Uniform() && (old(WellPlaced(cells, chan)) ==> WellPlaced(cells, chan))
          && before.Keys == cells.Keys
        invariant forall q :: q in cells && q != p ==> q in old(cells) && cells[q] == old(cells)[q]
        invariant FilledUpTo(before, p, i, segmentId, name) && ListsFillers(before, tracks')
      {
        if cells[p][i] == None {
          ghost var mid := cells;
          var t := FillOne(p, i, segmentId, name);
          ListsMore(before, mid, p, i, t, tracks');
          tracks' := tracks' + [t];
        }
      }
    }

    lemma ListsMore(before: Cells, mid: Cells, p: Position, i: nat, t: Track, tracks: seq<Track>)
      requires p in before && p in mid && i < |before[p]| == |mid[p]| && before[p][i] == None && mid[p][i] == None
      requires cells == mid[p := mid[p][i := Some(t)]]
      requires forall u :: u in tracks <==>
        exists q, j :: q in before && 0 <= j < |before[q]| && before[q][j] == None && OnEntry(mid, q, j, u)
      ensures ListsFillers(before, tracks + [t])
    {
      assert OnEntry(cells, p, i, t);
      forall u ensures u in tracks + [t] <==>
        exists q, j :: q in before && 0 <= j < |before[q]| && before[q][j] == None && OnEntry(cells, q, j, u)
      {
        if q, j :| q in before && 0 <= j < |before[q]| && before[q][j] == None && OnEntry(mid, q, j, u) {
          assert OnEntry(cells, q, j, u);
        }
        if q, j :| q in before && 0 <= j < |before[q]| && before[q][j] == None && OnEntry(cells, q, j, u) {
          assert (q == p && j == i && u == t) || OnEntry(mid, q, j, u);
        }
      }
    }

    /** fill_empty: a filler in every empty entry of every inner position, and nothing else. */
    method FillEmpty(segmentId: int, name: string) returns (tracks: seq<Track>)
      requires Complete() && Uniform()
      modifies this
      ensures Complete() && Uniform() && cells.Keys == old(cells).Keys
        && (old(WellPlaced(cells, chan)) ==> WellPlaced(cells, chan))
      ensures forall p :: p in cells ==>
        p in old(cells) && if Inner(p) then FilledUpTo(old(cells), p, |cells[p]|, segmentId, name)
          else cells[p] == old(cells)[p]
      ensures ListsFillers(old(cells), tracks)
    {
      hide WellPlaced, Uniform;
      ghost var before := cells;
      tracks := [];
      var xmin, ymin := if chan == X then 1 else 0, if chan == X then 0 else 1;
      var y := ymin;
      while y < height
        invariant ymin <= y && Complete() && Uniform() && (old(WellPlaced(cells, chan)) ==> WellPlaced(cells, chan))
        invariant before.Keys == cells.Keys && ListsFillers(before, tracks)
        invariant forall p :: p in cells ==>
          if Inner(p) && p.y < y then FilledUpTo(before, p, |before[p]|, segmentId, name) else cells[p] == before[p]
      {
        var x := xmin;
        while x < width
          invariant xmin <= x && Complete() && Uniform() && (old(WellPlaced(cells, chan)) ==> WellPlaced(cells, chan))
          invariant before.Keys == cells.Keys && ListsFillers(before, tracks)
          invariant forall p :: p in cells ==>
            if Inner(p) && (p.y < y || (p.y == y && p.x < x)) then FilledUpTo(before, p, |before[p]|, segmentId, name)
            else cells[p] == before[p]
        {
          var p := Position(x, y);
          tracks := FillPosition(p, segmentId, name, tracks, before);
          x := x + 1;
        }
        y := y + 1;
      }
    }

    // ----- checks -----

    /** check. */
    method Check() returns (ok: bool)
      requires Complete()
      ensures ok <==> Uniform()
    {
      for n := 0 to ChannelCount()
        invariant forall m :: 0 <= m < n ==> UniformAt(m)
      {
        var even := LenEq(SliceOf(n));
        if !even {
          assert !UniformAt(n);
          return false;
        }
      }
      return true;
    }

    /** assert_full: the channels are even and no inner entry is empty. */
    method AssertFull() returns (ok: bool)
      requires Complete()
      ensures ok <==> Uniform() && forall p, i :: Inner(p) && 0 <= i < |cells[p]| ==> cells[p][i] != None
    {
      ok := Check();
      if !ok {
        return;
      }
      hide Uniform;
      var y := if chan == X then 0 else 1;
      while y < height
        invariant y >= if chan == X then 0 else 1
        invariant forall p, i :: Inner(p) && p.y < y && 0 <= i < |cells[p]| ==> cells[p][i] != None
      {
        var x := if chan == X then 1 else 0;
        while x < width
          invariant x >= if chan == X then 1 else 0
          invariant forall p, i :: Inner(p) && (p.y < y || (p.y == y && p.x < x)) && 0 <= i < |cells[p]| ==>
            cells[p][i] != None
        {
          var entry := cells[Position(x, y)];
          for i := 0 to |entry|
            invariant forall j :: 0 <= j < i ==> entry[j] != None
          {
            if entry[i] == None {
              assert Inner(Position(x, y));
              return false;
            }
          }
          x := x + 1;
        }
        y := y + 1;
      }
    }

    /** channel_widths: the width of every channel at its first position, and the least and greatest of them: the
        infinities stand, as None, when there is no channel. A channel without positions has no
        first one: IndexError. */
    method ChannelWidths() returns (ok: bool, least: Option<nat>, greatest: Option<nat>, widths: seq<nat>)
      requires Complete()
      ensures ok <==> ChannelCount() == 0 || ChannelLength() > 0
      ensures ok ==> |widths| == ChannelCount()
      ensures ok ==> forall n :: 0 <= n < |widths| ==> widths[n] == |SliceOf(n)[0]|
      ensures ok ==> Bounds(least, greatest, widths)
      ensures ok && Uniform() ==> forall n :: 0 <= n < |widths| ==> Even(SliceOf(n), widths[n])
    {
      ok, least, greatest, widths := true, None, None, [];
      for n := 0 to ChannelCount()
        invariant ok && |widths| == n && (n > 0 ==> ChannelLength() > 0)
        invariant forall m :: 0 <= m < n ==> widths[m] == |SliceOf(m)[0]|
        invariant Bounds(least, greatest, widths)
      {
        if ChannelLength() == 0 {
          return false, least, greatest, widths;
        }
        var w := |SliceOf(n)[0]|;
        least := Some(if least.None? then w else Min(least.value, w));
        greatest := Some(if greatest.None? then w else Max(greatest.value, w));
        widths := widths + [w];
      }
      if Uniform() {
        forall n | 0 <= n < |widths| ensures Even(SliceOf(n), widths[n]) { assert UniformAt(n); }
      }
    }
  }

  /** Filling up makes the check for full channels pass. */
  method FillAndCheck(grid: ChannelGrid, segmentId: int, name: string) returns (ok: bool)
    requires grid.Complete() && grid.Uniform()
    modifies grid
    ensures ok
  {
    var tracks := grid.FillEmpty(segmentId, name);
    ok := grid.AssertFull();
  }
}
