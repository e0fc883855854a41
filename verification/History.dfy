/**
  The record of a session (dhtcore/src/History.cpp): bounded, with the older
  part thinned by merging neighbours.
  */
module Histories {
  import opened Options
  import opened ClientShares

  const METRIC_COUNT := 23
  const MAX_SAMPLES := 720
  const KEEP_FULL_DETAIL := 360

  /** One number per metric; None where it was not known (the source's NaN). */
  type Values = v: seq<Option<real>> | |v| == METRIC_COUNT witness seq(METRIC_COUNT, _ => None)

  datatype Sample = Sample(atMs: int, spanMs: int, gapBefore: bool, values: Values, clients: seq<Share>)

  function Weight(s: Sample): (w: real)
    ensures w >= 1.0
  {
    if s.spanMs < 1 then 1.0 else s.spanMs as real
  }

  /** Two readings of one metric as one. */
  function Mean(a: Option<real>, wa: real, b: Option<real>, wb: real): Option<real>
    requires wa >= 1.0 && wb >= 1.0
  {
    if a.None? then b else if b.None? then a else Some((a.value * wa + b.value * wb) / (wa + wb))
  }

  lemma MeanBalances(a: real, wa: real, b: real, wb: real)
    requires wa >= 1.0 && wb >= 1.0
    ensures (a * wa + b * wb) / (wa + wb) * (wa + wb) == a * wa + b * wb
  {}

  /** A mean of numbers above `low` is above it. */
  lemma MeanAbove(a: real, wa: real, b: real, wb: real, low: real)
    requires wa >= 1.0 && wb >= 1.0 && low <= a && low <= b
    ensures low <= (a * wa + b * wb) / (wa + wb)
  {
    var m := (a * wa + b * wb) / (wa + wb);
    MeanBalances(a, wa, b, wb);
    assert (a - low) * wa >= 0.0 && (b - low) * wb >= 0.0;
    assert (m - low) * (wa + wb) == (a - low) * wa + (b - low) * wb;
  }

  lemma MeanBelow(a: real, wa: real, b: real, wb: real, high: real)
    requires wa >= 1.0 && wb >= 1.0 && a <= high && b <= high
    ensures (a * wa + b * wb) / (wa + wb) <= high
  {
    var m := (a * wa + b * wb) / (wa + wb);
    MeanBalances(a, wa, b, wb);
    assert (high - a) * wa >= 0.0 && (high - b) * wb >= 0.0;
    assert (high - m) * (wa + wb) == (high - a) * wa + (high - b) * wb;
  }

  function Both(older: Sample, newer: Sample): Sample {
    Sample(newer.atMs, older.spanMs + newer.spanMs, older.gapBefore,
           seq(METRIC_COUNT, (i: nat) requires i < METRIC_COUNT =>
             Mean(older.values[i], Weight(older), newer.values[i], Weight(newer))),
           Merged(older.clients, Weight(older), newer.clients, Weight(newer)))
  }

  /** The older part with neighbours merged, never across a gap. */
  function Paired(s: seq<Sample>): (r: seq<Sample>) {
    if |s| <= 1 then s
    else if s[1].gapBefore then [s[0]] + Paired(s[1..])
    else [Both(s[0], s[1])] + Paired(s[2..])
  }

  lemma PairedStep(s: seq<Sample>)
    requires s != []
    ensures |s| > 1 && !s[1].gapBefore ==> Paired(s) == [Both(s[0], s[1])] + Paired(s[2..])
    ensures |s| == 1 || s[1].gapBefore ==> Paired(s) == [s[0]] + Paired(s[1..])
  {}

  lemma PairedNone(s: seq<Sample>)
    requires s == []
    ensures Paired(s) == []
  {}

  /** Nothing in `s` can be merged: every sample but the first follows a gap. */
  predicate AllApart(s: seq<Sample>) {
    forall i :: 1 <= i < |s| ==> s[i].gapBefore
  }

  lemma {:induction false} PairedShorter(s: seq<Sample>)
    ensures |Paired(s)| <= |s|
    ensures |Paired(s)| == |s| <==> AllApart(s)
    ensures AllApart(s) ==> Paired(s) == s
    ensures s != [] ==> Paired(s) != []
  {
    if |s| > 1 {
      if s[1].gapBefore {
        PairedShorter(s[1..]);
        assert AllApart(s) <==> AllApart(s[1..]) by {
          if AllApart(s[1..]) {
            forall i | 2 <= i < |s| ensures s[i].gapBefore {
              assert s[1..][i - 1].gapBefore;
            }
          }
        }
      } else {
        PairedShorter(s[2..]);
      }
    }
  }

  // ------------------------------------------------------------------------
  // Segments: what a history records between two gaps

  /** An unbroken stretch of recording: when it ended, the time it stands for
      and the span-weighted sum of what is tracked over it. */
  datatype Segment = Segment(toMs: int, spanMs: int, sum: real)

  /** What is added up: nothing but time, one metric, or one client's share. */
  datatype Tracked = Time | Metric(index: nat) | OneClient(client: Client)

  /** The metric is known in the sample; its clients are listed once each. */
  predicate KnownIn(x: Sample, m: Tracked) {
    match m
    case Time => true
    case Metric(i) => i < METRIC_COUNT && x.values[i].Some?
    case OneClient(_) => Distinct(Names(x.clients))
  }

  predicate Known(s: seq<Sample>, m: Tracked) {
    forall i :: 0 <= i < |s| ==> KnownIn(s[i], m)
  }

  function Sum(x: Sample, m: Tracked): real {
    match m
    case Time => 0.0
    case Metric(i) => if i < METRIC_COUNT && x.values[i].Some? then x.values[i].value * x.spanMs as real else 0.0
    case OneClient(client) => ShareOf(x.clients, client) * x.spanMs as real
  }

  /** The segments after one more sample. */
  function Extended(segments: seq<Segment>, x: Sample, m: Tracked): seq<Segment> {
    if x.gapBefore || segments == [] then segments + [Segment(x.atMs, x.spanMs, Sum(x, m))]
    else
      var last := segments[|segments| - 1];
      segments[..|segments| - 1] + [Segment(x.atMs, last.spanMs + x.spanMs, last.sum + Sum(x, m))]
  }

  /** `before` and then the segments of `s`. */
  function Segments(before: seq<Segment>, s: seq<Sample>, m: Tracked): seq<Segment>
    decreases |s|
  {
    if s == [] then before else Segments(Extended(before, s[0], m), s[1..], m)
  }

  predicate SpansPositive(s: seq<Sample>) {
    forall i :: 0 <= i < |s| ==> s[i].spanMs >= 1
  }

  /** Merging keeps what is tracked. */
  lemma BothSums(a: Sample, b: Sample, m: Tracked)
    requires a.spanMs >= 1 && b.spanMs >= 1 && KnownIn(a, m) && KnownIn(b, m)
    ensures KnownIn(Both(a, b), m) && Sum(Both(a, b), m) == Sum(a, m) + Sum(b, m)
  {
    hide Merged, ShareOf;
    var both := Both(a, b);
    assert both.spanMs as real == Weight(a) + Weight(b);
    match m
    case Time =>
    case Metric(i) => MeanBalances(a.values[i].value, Weight(a), b.values[i].value, Weight(b));
    case OneClient(client) => MergedConserves(a.clients, Weight(a), b.clients, Weight(b), client);
  }

  /** Merging two neighbours with no gap between extends a segment the same. */
  lemma MergedExtends(before: seq<Segment>, a: Sample, b: Sample, m: Tracked)
    requires !b.gapBefore && a.spanMs >= 1 && b.spanMs >= 1 && KnownIn(a, m) && KnownIn(b, m)
    ensures Extended(before, Both(a, b), m) == Extended(Extended(before, a, m), b, m)
    ensures KnownIn(Both(a, b), m)
  {
    hide Sum, KnownIn;
    BothSums(a, b, m);
  }

  /** Thinning conserves every segment: its end, its span and its sums. */
  lemma {:induction false} PairedConserves(before: seq<Segment>, s: seq<Sample>, m: Tracked)
    requires SpansPositive(s) && Known(s, m)
    ensures Segments(before, Paired(s), m) == Segments(before, s, m)
    ensures SpansPositive(Paired(s)) && Known(Paired(s), m)
    decreases |s|
  {
    hide Sum, KnownIn, Extended;
    if |s| > 1 {
      if s[1].gapBefore {
        PairedConserves(Extended(before, s[0], m), s[1..], m);
      } else {
        MergedExtends(before, s[0], s[1], m);
        PairedConserves(Extended(before, Both(s[0], s[1]), m), s[2..], m);
        assert s[1..][1..] == s[2..];
      }
    }
  }

  lemma {:induction false} SegmentsConcat(before: seq<Segment>, s: seq<Sample>, t: seq<Sample>, m: Tracked)
    ensures Segments(before, s + t, m) == Segments(Segments(before, s, m), t, m)
    decreases |s|
  {
    if s == [] {
      assert s + t == t;
    } else {
      assert (s + t)[1..] == s[1..] + t;
      SegmentsConcat(Extended(before, s[0], m), s[1..], t, m);
    }
  }

  lemma SegmentsMore(s: seq<Sample>, x: Sample, m: Tracked)
    ensures Segments([], s + [x], m) == Extended(Segments([], s, m), x, m)
  {
    SegmentsConcat([], s, [x], m);
    assert [x][1..] == [];
  }

  /** Earlier segments are not touched by what follows. */
  lemma {:induction false} SegmentsAfter(first: seq<Segment>, before: seq<Segment>, s: seq<Sample>, m: Tracked)
    requires before != [] || s == [] || s[0].gapBefore
    ensures Segments(first + before, s, m) == first + Segments(before, s, m)
    decreases |s|
  {
    if s != [] {
      assert Extended(first + before, s[0], m) == first + Extended(before, s[0], m);
      SegmentsAfter(first, Extended(before, s[0], m), s[1..], m);
    }
  }

  /** Dropping a sample that a gap follows drops exactly its segment. */
  lemma DroppedSegment(s: seq<Sample>, m: Tracked)
    requires |s| > 1 && s[1].gapBefore
    ensures Segments([], s, m) == [Segment(s[0].atMs, s[0].spanMs, Sum(s[0], m))] + Segments([], s[1..], m)
  {
    SegmentsAfter(Extended([], s[0], m), [], s[1..], m);
    assert Extended([], s[0], m) + [] == Extended([], s[0], m);
  }

  // ------------------------------------------------------------------------
  // What else thinning keeps

  function Start(x: Sample): int {
    x.atMs - x.spanMs
  }

  /** No sample starts before the one before it ended. */
  predicate InOrder(s: seq<Sample>) {
    forall i :: 0 <= i < |s| - 1 ==> s[i].atMs <= Start(s[i + 1])
  }

  /** Where there is no gap, each sample starts where the last one ended. */
  predicate Contiguous(s: seq<Sample>) {
    forall i :: 0 <= i < |s| - 1 && !s[i + 1].gapBefore ==> s[i].atMs == Start(s[i + 1])
  }

  lemma {:induction false} PairedInOrder(s: seq<Sample>)
    requires InOrder(s)
    ensures InOrder(Paired(s))
    ensures s != [] ==> Paired(s) != [] && Start(s[0]) <= Start(Paired(s)[0])
    ensures s != [] ==> Paired(s)[|Paired(s)| - 1].atMs == s[|s| - 1].atMs
  {
    if |s| > 1 {
      PairedInOrder(if s[1].gapBefore then s[1..] else s[2..]);
    }
  }

  lemma {:induction false} PairedContiguous(s: seq<Sample>)
    requires Contiguous(s)
    ensures Contiguous(Paired(s))
    ensures s != [] ==> Paired(s) != [] && Paired(s)[0].gapBefore == s[0].gapBefore
    ensures s != [] ==> Start(Paired(s)[0]) == Start(s[0])
    ensures s != [] ==> Paired(s)[|Paired(s)| - 1].atMs == s[|s| - 1].atMs
  {
    if |s| > 1 {
      PairedContiguous(if s[1].gapBefore then s[1..] else s[2..]);
    }
  }

  /** Every known value of metric `m` lies in [low, high]. */
  predicate Within(s: seq<Sample>, m: nat, low: real, high: real)
    requires m < METRIC_COUNT
  {
    forall i :: 0 <= i < |s| && s[i].values[m].Some? ==> low <= s[i].values[m].value <= high
  }

  lemma MergedWithin(a: Sample, b: Sample, m: nat, low: real, high: real)
    requires m < METRIC_COUNT && Within([a], m, low, high) && Within([b], m, low, high)
    ensures Within([Both(a, b)], m, low, high)
  {
    hide Mean;
    assert [a][0] == a && [b][0] == b;
    MeanWithin(a.values[m], Weight(a), b.values[m], Weight(b), low, high);
  }

  lemma MeanWithin(a: Option<real>, wa: real, b: Option<real>, wb: real, low: real, high: real)
    requires wa >= 1.0 && wb >= 1.0
    requires a.Some? ==> low <= a.value <= high
    requires b.Some? ==> low <= b.value <= high
    ensures Mean(a, wa, b, wb).Some? ==> low <= Mean(a, wa, b, wb).value <= high
  {
    if a.Some? && b.Some? {
      MeanAbove(a.value, wa, b.value, wb, low);
      MeanBelow(a.value, wa, b.value, wb, high);
    }
  }

  lemma WithinConcat(s: seq<Sample>, t: seq<Sample>, m: nat, low: real, high: real)
    requires m < METRIC_COUNT
    ensures Within(s + t, m, low, high) <==> Within(s, m, low, high) && Within(t, m, low, high)
  {
    forall i | 0 <= i < |s| ensures (s + t)[i] == s[i] {}
    forall i | 0 <= i < |t| ensures (s + t)[|s| + i] == t[i] {}
  }

  lemma {:induction false} PairedWithin(s: seq<Sample>, m: nat, low: real, high: real)
    requires m < METRIC_COUNT && Within(s, m, low, high)
    ensures Within(Paired(s), m, low, high)
  {
    hide Within, Both;
    if |s| > 1 {
      assert s == [s[0]] + s[1..];
      WithinConcat([s[0]], s[1..], m, low, high);
      if s[1].gapBefore {
        PairedWithin(s[1..], m, low, high);
        WithinConcat([s[0]], Paired(s[1..]), m, low, high);
      } else {
        assert s[1..] == [s[1]] + s[2..];
        WithinConcat([s[1]], s[2..], m, low, high);
        PairedWithin(s[2..], m, low, high);
        MergedWithin(s[0], s[1], m, low, high);
        WithinConcat([Both(s[0], s[1])], Paired(s[2..]), m, low, high);
      }
    }
  }

  // ------------------------------------------------------------------------
  // Adding

  /** The history after one more sample. */
  function Added(s: seq<Sample>, x: Sample): seq<Sample>
    requires |s| <= MAX_SAMPLES
  {
    var all := s + [x];
    if |all| <= MAX_SAMPLES then all
    else
      var older := |all| - KEEP_FULL_DETAIL;
      if AllApart(all[..older]) then all[1..] else Paired(all[..older]) + all[older..]
  }

  /** One more sample: the bound, and the newest samples as they were. */
  lemma AddedFits(s: seq<Sample>, x: Sample)
    requires |s| <= MAX_SAMPLES
    ensures 1 <= |Added(s, x)| <= MAX_SAMPLES
    ensures Newest(Added(s, x), KEEP_FULL_DETAIL) == Newest(s + [x], KEEP_FULL_DETAIL)
  {
    hide Paired, AllApart;
    if |s| == MAX_SAMPLES {
      PairedShorter((s + [x])[..|s| + 1 - KEEP_FULL_DETAIL]);
    }
  }

  /** The sample that has to go when nothing can be merged. */
  predicate Drops(s: seq<Sample>) {
    |s| == MAX_SAMPLES && AllApart(s[..MAX_SAMPLES + 1 - KEEP_FULL_DETAIL])
  }

  /**
    One more sample keeps every segment, but for the oldest when nothing can be
    merged.
    */
  lemma AddedConserves(s: seq<Sample>, x: Sample, m: Tracked)
    requires |s| <= MAX_SAMPLES && SpansPositive(s + [x]) && Known(s + [x], m)
    ensures Segments([], s + [x], m) == Extended(Segments([], s, m), x, m)
    ensures !Drops(s) ==> Segments([], Added(s, x), m) == Segments([], s + [x], m)
    ensures Drops(s) ==> Added(s, x) == (s + [x])[1..]
    ensures Drops(s) ==> |Segments([], s + [x], m)| >= 1 && Segments([], Added(s, x), m) == Segments([], s + [x], m)[1..]
    ensures SpansPositive(Added(s, x)) && Known(Added(s, x), m)
  {
    hide Paired, Extended, AllApart, SpansPositive, Known;
    var all := s + [x];
    SegmentsMore(s, x, m);
    if |all| > MAX_SAMPLES {
      var older := |all| - KEEP_FULL_DETAIL;
      assert all[..older] == s[..older];
      assert all == all[..older] + all[older..] == all[..1] + all[1..];
      KnownConcat(all[..older], all[older..], m);
      KnownConcat(all[..1], all[1..], m);
      if Drops(s) {
        SecondApart(all, older);
        DroppedSegment(all, m);
      } else {
        PairedConserves([], all[..older], m);
        SegmentsConcat([], all[..older], all[older..], m);
        SegmentsConcat([], Paired(all[..older]), all[older..], m);
        KnownConcat(Paired(all[..older]), all[older..], m);
      }
    }
  }

  lemma SecondApart(s: seq<Sample>, n: nat)
    requires 1 < n <= |s| && AllApart(s[..n])
    ensures s[1].gapBefore
  {
    assert s[..n][1].gapBefore;
  }

  lemma KnownConcat(s: seq<Sample>, t: seq<Sample>, m: Tracked)
    ensures SpansPositive(s + t) <==> SpansPositive(s) && SpansPositive(t)
    ensures Known(s + t, m) <==> Known(s, m) && Known(t, m)
  {
    forall i | 0 <= i < |s| ensures (s + t)[i] == s[i] {}
    forall i | 0 <= i < |t| ensures (s + t)[|s| + i] == t[i] {}
  }

  lemma InOrderConcat(s: seq<Sample>, t: seq<Sample>)
    ensures InOrder(s + t) <==>
            InOrder(s) && InOrder(t) && (s != [] && t != [] ==> s[|s| - 1].atMs <= Start(t[0]))
  {
    hide Start;
    var all := s + t;
    forall i | 0 <= i < |s| ensures all[i] == s[i] {}
    forall i | 0 <= i < |t| ensures all[|s| + i] == t[i] {}
    if InOrder(all) {
      forall i | 0 <= i < |t| - 1 ensures t[i].atMs <= Start(t[i + 1]) {
        assert all[|s| + i].atMs <= Start(all[|s| + i + 1]);
      }
      if s != [] && t != [] {
        assert all[|s| - 1].atMs <= Start(all[|s| - 1 + 1]);
      }
    }
  }

  lemma ContiguousConcat(s: seq<Sample>, t: seq<Sample>)
    ensures Contiguous(s + t) <==>
            && Contiguous(s) && Contiguous(t)
            && (s != [] && t != [] && !t[0].gapBefore ==> s[|s| - 1].atMs == Start(t[0]))
  {
    hide Start;
    var all := s + t;
    forall i | 0 <= i < |s| ensures all[i] == s[i] {}
    forall i | 0 <= i < |t| ensures all[|s| + i] == t[i] {}
    if Contiguous(all) {
      forall i | 0 <= i < |t| - 1 && !t[i + 1].gapBefore ensures t[i].atMs == Start(t[i + 1]) {
        assert !all[|s| + i + 1].gapBefore;
      }
      if s != [] && t != [] {
        assert all[|s| - 1 + 1] == t[0];
      }
    }
  }

  lemma AddedInOrder(s: seq<Sample>, x: Sample)
    requires |s| <= MAX_SAMPLES && InOrder(s + [x])
    ensures InOrder(Added(s, x))
  {
    hide Paired, AllApart;
    if |s| == MAX_SAMPLES {
      ThinnedInOrder(s + [x], MAX_SAMPLES + 1 - KEEP_FULL_DETAIL);
    }
  }

  lemma ThinnedInOrder(all: seq<Sample>, older: nat)
    requires 1 <= older <= |all| && InOrder(all)
    ensures InOrder(all[1..]) && InOrder(Paired(all[..older]) + all[older..])
  {
    hide Paired, Start, InOrder;
    assert all[..older] + all[older..] == all && all[..1] + all[1..] == all;
    InOrderConcat(all[..older], all[older..]);
    InOrderConcat(all[..1], all[1..]);
    PairedInOrder(all[..older]);
    InOrderConcat(Paired(all[..older]), all[older..]);
  }

  lemma AddedContiguous(s: seq<Sample>, x: Sample)
    requires |s| <= MAX_SAMPLES && Contiguous(s + [x])
    ensures Contiguous(Added(s, x))
  {
    hide Paired, AllApart;
    if |s| == MAX_SAMPLES {
      ThinnedContiguous(s + [x], MAX_SAMPLES + 1 - KEEP_FULL_DETAIL);
    }
  }

  lemma ThinnedContiguous(all: seq<Sample>, older: nat)
    requires 1 <= older <= |all| && Contiguous(all)
    ensures Contiguous(all[1..]) && Contiguous(Paired(all[..older]) + all[older..])
  {
    hide Paired, Start, Contiguous;
    assert all[..older] + all[older..] == all && all[..1] + all[1..] == all;
    ContiguousConcat(all[..older], all[older..]);
    ContiguousConcat(all[..1], all[1..]);
    PairedContiguous(all[..older]);
    ContiguousConcat(Paired(all[..older]), all[older..]);
  }

  lemma AddedWithin(s: seq<Sample>, x: Sample, m: nat, low: real, high: real)
    requires |s| <= MAX_SAMPLES && m < METRIC_COUNT && Within(s + [x], m, low, high)
    ensures Within(Added(s, x), m, low, high)
  {
    hide Paired, AllApart, Within;
    var all := s + [x];
    if |all| > MAX_SAMPLES {
      var older := |all| - KEEP_FULL_DETAIL;
      assert all == all[..older] + all[older..] == all[..1] + all[1..];
      WithinConcat(all[..older], all[older..], m, low, high);
      WithinConcat(all[..1], all[1..], m, low, high);
      PairedWithin(all[..older], m, low, high);
      WithinConcat(Paired(all[..older]), all[older..], m, low, high);
    }
  }

  // ------------------------------------------------------------------------
  // Whole sessions

  /** The history after recording `xs`, oldest first. */
  function Recorded(xs: seq<Sample>): (h: seq<Sample>)
    ensures |h| <= MAX_SAMPLES
  {
    if xs == [] then []
    else
      AddedFits(Recorded(xs[..|xs| - 1]), xs[|xs| - 1]);
      Added(Recorded(xs[..|xs| - 1]), xs[|xs| - 1])
  }

  /** How many samples had to be dropped while recording `xs`. */
  function Dropped(xs: seq<Sample>): nat {
    if xs == [] then 0
    else Dropped(xs[..|xs| - 1]) + if Drops(Recorded(xs[..|xs| - 1])) then 1 else 0
  }

  /**
    However long the session, what the history holds are the latest segments of
    the whole record, each with its exact end, span and span-weighted sums; the
    only ones missing are the oldest, one for each sample dropped.
    */
  lemma {:induction false} RecordIsFaithful(xs: seq<Sample>, m: Tracked)
    requires SpansPositive(xs) && Known(xs, m)
    ensures Dropped(xs) <= |Segments([], xs, m)|
    ensures Segments([], Recorded(xs), m) == Segments([], xs, m)[Dropped(xs)..]
    ensures SpansPositive(Recorded(xs)) && Known(Recorded(xs), m)
    ensures xs != [] ==> Segments([], Recorded(xs), m) != []
  {
    hide Added, Segments, Extended, SpansPositive, Known, Drops;
    if xs == [] {
      NothingRecorded(m);
    } else {
      var before, x := xs[..|xs| - 1], xs[|xs| - 1];
      var h := Recorded(before);
      assert xs == before + [x];
      KnownConcat(before, [x], m);
      RecordIsFaithful(before, m);
      KnownConcat(h, [x], m);
      AddedConserves(h, x, m);
      SegmentsMore(before, x, m);
      ExtendedSuffix(Segments([], before, m), Dropped(before), x, m);
      AddedFits(h, x);
      NonEmptySegments(Added(h, x), m);
    }
  }

  lemma NothingRecorded(m: Tracked)
    ensures Segments([], [], m) == [] && Recorded([]) == [] && SpansPositive([])
  {}

  lemma ExtendedSuffix(segments: seq<Segment>, d: nat, x: Sample, m: Tracked)
    requires d <= |segments| && (segments[d..] != [] || segments == [])
    ensures d <= |Extended(segments, x, m)|
    ensures Extended(segments[d..], x, m) == Extended(segments, x, m)[d..]
  {}

  lemma NonEmptySegments(s: seq<Sample>, m: Tracked)
    requires s != []
    ensures Segments([], s, m) != []
  {
    SegmentsNonEmpty(Extended([], s[0], m), s[1..], m);
  }

  lemma {:induction false} SegmentsNonEmpty(before: seq<Segment>, s: seq<Sample>, m: Tracked)
    requires before != []
    ensures Segments(before, s, m) != []
    decreases |s|
  {
    if s != [] {
      SegmentsNonEmpty(Extended(before, s[0], m), s[1..], m);
    }
  }

  /** Samples recorded in order stay in order, contiguous stretches stay
      contiguous, and no metric leaves the range it was recorded in. */
  lemma {:induction false} RecordKeeps(xs: seq<Sample>, m: nat, low: real, high: real)
    requires m < METRIC_COUNT
    ensures InOrder(xs) ==> InOrder(Recorded(xs))
    ensures Contiguous(xs) ==> Contiguous(Recorded(xs))
    ensures Within(xs, m, low, high) ==> Within(Recorded(xs), m, low, high)
  {
    hide Added, Within, InOrder, Contiguous;
    if xs == [] {
      EmptyKeeps(m, low, high);
    } else {
      var before, x := xs[..|xs| - 1], xs[|xs| - 1];
      var h := Recorded(before);
      assert xs == before + [x];
      RecordKeeps(before, m, low, high);
      RecordKeepsNewest(before);
      OneMore(before, h, x);
      WithinConcat(before, [x], m, low, high);
      WithinConcat(h, [x], m, low, high);
      if InOrder(xs) {
        AddedInOrder(h, x);
      }
      if Contiguous(xs) {
        AddedContiguous(h, x);
      }
      if Within(xs, m, low, high) {
        AddedWithin(h, x, m, low, high);
      }
    }
  }

  lemma EmptyKeeps(m: nat, low: real, high: real)
    requires m < METRIC_COUNT
    ensures Recorded([]) == [] && InOrder([]) && Contiguous([]) && Within([], m, low, high)
  {}

  /** A history that ends as the record does takes the next sample the same. */
  lemma OneMore(before: seq<Sample>, h: seq<Sample>, x: Sample)
    requires before == [] <==> h == []
    requires h != [] ==> h[|h| - 1] == before[|before| - 1]
    ensures InOrder(before + [x]) ==> InOrder(before)
    ensures InOrder(before + [x]) && InOrder(h) ==> InOrder(h + [x])
    ensures Contiguous(before + [x]) ==> Contiguous(before)
    ensures Contiguous(before + [x]) && Contiguous(h) ==> Contiguous(h + [x])
  {
    var xs := before + [x];
    forall i | 0 <= i < |before| ensures xs[i] == before[i] {}
    if h != [] {
      assert xs[|before| - 1] == h[|h| - 1] && xs[|before| - 1 + 1] == x;
    }
  }

  function Newest(s: seq<Sample>, n: nat): seq<Sample> {
    if |s| <= n then s else s[|s| - n..]
  }

  /** The newest samples are kept exactly as they were recorded. */
  lemma {:induction false} RecordKeepsNewest(xs: seq<Sample>)
    ensures Newest(Recorded(xs), KEEP_FULL_DETAIL) == Newest(xs, KEEP_FULL_DETAIL)
    ensures xs == [] <==> Recorded(xs) == []
    ensures xs != [] ==> Recorded(xs)[|Recorded(xs)| - 1] == xs[|xs| - 1]
  {
    hide Added;
    if xs != [] {
      var before, x := xs[..|xs| - 1], xs[|xs| - 1];
      var h := Recorded(before);
      assert xs == before + [x];
      RecordKeepsNewest(before);
      AddedFits(h, x);
      NewestStep(h, before, x);
      NewestEnds(Recorded(xs), xs, KEEP_FULL_DETAIL);
    }
  }

  lemma NewestStep(h: seq<Sample>, s: seq<Sample>, x: Sample)
    requires Newest(h, KEEP_FULL_DETAIL) == Newest(s, KEEP_FULL_DETAIL)
    ensures Newest(h + [x], KEEP_FULL_DETAIL) == Newest(s + [x], KEEP_FULL_DETAIL)
  {
    NewestOfMore(h, x);
    NewestOfMore(s, x);
  }

  lemma NewestOfMore(s: seq<Sample>, x: Sample)
    ensures var n := Newest(s, KEEP_FULL_DETAIL);
            Newest(s + [x], KEEP_FULL_DETAIL) == (if |n| < KEEP_FULL_DETAIL then n else n[1..]) + [x]
  {}

  lemma NewestEnds(s: seq<Sample>, t: seq<Sample>, n: nat)
    requires Newest(s, n) == Newest(t, n) && t != [] && n > 0
    ensures s != [] && s[|s| - 1] == t[|t| - 1]
  {
    assert Newest(t, n)[|Newest(t, n)| - 1] == t[|t| - 1];
  }

  // ------------------------------------------------------------------------
  // The code

  /** Thinning frees a place unless nothing could be merged. */
  lemma ThinnedSize(s: seq<Sample>, older: nat)
    requires older <= |s|
    ensures |Paired(s[..older]) + s[older..]| <= |s|
    ensures |Paired(s[..older]) + s[older..]| == |s| <==> AllApart(s[..older])
    ensures AllApart(s[..older]) ==> Paired(s[..older]) + s[older..] == s
  {
    hide Paired, AllApart;
    PairedShorter(s[..older]);
    assert s == s[..older] + s[older..];
  }

  /** Two samples as one, weighted by span. */
  method MergeSamples(older: Sample, newer: Sample) returns (out: Sample)
    ensures out == Both(older, newer)
  {
    hide Merged, Mean;
    var wa, wb := Weight(older), Weight(newer);
    var values: seq<Option<real>> := [];
    for i := 0 to METRIC_COUNT
      invariant |values| == i
      invariant forall k :: 0 <= k < i ==> values[k] == Mean(older.values[k], wa, newer.values[k], wb)
    {
      var value := Mean(older.values[i], wa, newer.values[i], wb);
      values := values + [value];
    }
    var clients := Merge(older.clients, wa, newer.clients, wb);
    out := Sample(newer.atMs, older.spanMs + newer.spanMs, older.gapBefore, values, clients);
  }

  class History {
    var samples: seq<Sample>

    ghost predicate Valid()
      reads this
    {
      |samples| <= MAX_SAMPLES
    }

    constructor ()
      ensures Valid() && samples == Recorded([])
    {
      samples := [];
    }

    method Clear()
      modifies this
      ensures Valid() && samples == Recorded([])
    {
      samples := [];
    }

    method Add(sample: Sample)
      requires Valid()
      modifies this
      ensures Valid() && samples == Added(old(samples), sample)
    {
      AddedFits(samples, sample);
      samples := samples + [sample];
      if |samples| > MAX_SAMPLES {
        Thin();
      }
    }

    /** The first `older` samples, neighbours merged. */
    method PairOlder(older: nat) returns (out: seq<Sample>)
      requires older <= |samples|
      ensures out == Paired(samples[..older])
    {
      hide Paired, Both;
      out := [];
      var i := 0;
      while i < older
        invariant 0 <= i <= older
        invariant out + Paired(samples[i..older]) == Paired(samples[..older])
      {
        PairedStep(samples[i..older]);
        if i + 1 < older && !samples[i + 1].gapBefore {
          var both := MergeSamples(samples[i], samples[i + 1]);
          assert samples[i..older][2..] == samples[i + 2..older];
          out := out + [both];
          i := i + 2;
        } else {
          assert samples[i..older][1..] == samples[i + 1..older];
          out := out + [samples[i]];
          i := i + 1;
        }
      }
      PairedNone(samples[older..older]);
    }

    method Thin()
      requires |samples| == MAX_SAMPLES + 1
      modifies this
      ensures var was, older := old(samples), MAX_SAMPLES + 1 - KEEP_FULL_DETAIL;
              samples == if AllApart(was[..older]) then was[1..] else Paired(was[..older]) + was[older..]
    {
      hide Paired, AllApart;
      var older := |samples| - KEEP_FULL_DETAIL;
      var out := PairOlder(older);
      out := WithRest(out, older);
      ThinnedSize(samples, older);
      if |out| > MAX_SAMPLES {
        out := out[|out| - MAX_SAMPLES..];
      }
      samples := out;
    }

    /** The newer samples follow as they are. */
    method WithRest(thinned: seq<Sample>, older: nat) returns (out: seq<Sample>)
      requires older <= |samples|
      ensures out == thinned + samples[older..]
    {
      out := thinned;
      for i := older to |samples|
        invariant out == thinned + samples[older..i]
      {
        out := out + [samples[i]];
      }
      assert samples[older..|samples|] == samples[older..];
    }

    /** A whole session in one call: the history is `Recorded`. */
    method Record(xs: seq<Sample>)
      requires Valid() && samples == []
      modifies this
      ensures Valid() && samples == Recorded(xs)
    {
      for i := 0 to |xs|
        invariant Valid() && samples == Recorded(xs[..i])
      {
        assert xs[..i + 1][..i] == xs[..i];
        Add(xs[i]);
      }
      assert xs[..|xs|] == xs;
    }
  }
}
