/** The insertion-point search of ui/main_window.py (`handle_request`): the
    cost of placing a requested track at a position of the play order, the
    two first-minimum scans (over every later position, and over the next
    MAX_LOOKAHEAD positions), and the "N songs, M min S s" report shown for
    each. */
module Insertion {
  import opened Tracks
  import Camelot

  /** MAX_LOOKAHEAD: how many positions the local scan looks ahead. */
  const MaxLookahead := 10

  function RealAbs(r: real): (a: real)
    ensures a >= 0.0 && (a == r || a == -r)
  {
    if r < 0.0 then -r else r
  }

  /** How badly the request `x` sits next to track `t`: the tempo gap plus
      the harmonic distance of the keys. */
  function PairCost(x: Track, t: Track): (c: real)
    ensures c >= 0.0
    ensures c == 0.0 <==> x.bpm == t.bpm && x.key == t.key
  {
    RealAbs(x.bpm - t.bpm) + Camelot.Distance(x.key, t.key) as real
  }

  /** The cost of inserting `x` at position i (between s[i-1] and s[i]); at
      the end of the order there is no right neighbour to pay for. */
  function Cost(s: seq<Track>, i: int, x: Track): real
    requires 1 <= i <= |s|
  {
    PairCost(x, s[i - 1]) + (if i < |s| then PairCost(x, s[i]) else 0.0)
  }

  /** p is where a scan of positions lo..hi settles: no position costs less,
      and every earlier position costs strictly more (the scan keeps the
      first of equally cheap positions). */
  ghost predicate IsFirstMinimum(s: seq<Track>, x: Track, lo: int, hi: int, p: int)
    requires 1 <= lo <= hi <= |s|
  {
    && lo <= p <= hi
    && (forall j :: lo <= j <= hi ==> Cost(s, p, x) <= Cost(s, j, x))
    && (forall j :: lo <= j < p ==> Cost(s, p, x) < Cost(s, j, x))
  }

  /** One of the scans on lines 241-249 and 252-260: the running minimum over
      positions lo..hi, replaced only by a strictly cheaper position. The
      first position takes the place of the infinite starting cost. */
  method FirstMinimum(s: seq<Track>, x: Track, lo: int, hi: int) returns (best: int, bestCost: real)
    requires 1 <= lo <= hi <= |s|
    ensures IsFirstMinimum(s, x, lo, hi, best)
    ensures bestCost == Cost(s, best, x)
  {
    best, bestCost := lo, Cost(s, lo, x);
    for i := lo + 1 to hi + 1
      invariant lo <= best < i
      invariant bestCost == Cost(s, best, x)
      invariant forall j :: lo <= j < i ==> bestCost <= Cost(s, j, x)
      invariant forall j :: lo <= j < best ==> bestCost < Cost(s, j, x)
    {
      var cost := Cost(s, i, x);
      if cost < bestCost {
        best, bestCost := i, cost;
      }
    }
  }

  /** Two scans of the same range settle on the same position. */
  lemma FirstMinimumUnique(s: seq<Track>, x: Track, lo: int, hi: int, p: int, q: int)
    requires 1 <= lo <= hi <= |s|
    requires IsFirstMinimum(s, x, lo, hi, p) && IsFirstMinimum(s, x, lo, hi, q)
    ensures p == q
  {
    assert Cost(s, p, x) == Cost(s, q, x);
  }

  /** The last position the local scan looks at. */
  function WindowEnd(s: seq<Track>, cursor: int): (w: int)
    requires 0 <= cursor < |s|
    ensures cursor + 1 <= w <= |s| && w <= cursor + 1 + MaxLookahead
    ensures w == |s| || w == cursor + 1 + MaxLookahead
  {
    Min(cursor + 1 + MaxLookahead, |s|)
  }

  /** Looking ahead only so far never finds a cheaper spot than the global
      scan. */
  lemma LocalNoCheaperThanGlobal(s: seq<Track>, x: Track, cursor: int, g: int, l: int)
    requires 0 <= cursor < |s|
    requires IsFirstMinimum(s, x, cursor + 1, |s|, g)
    requires IsFirstMinimum(s, x, cursor + 1, WindowEnd(s, cursor), l)
    ensures Cost(s, g, x) <= Cost(s, l, x)
  {
  }

  /** When the global pick lies within the window, the local scan finds the
      same position; in particular when the order ends within the window. */
  lemma LocalIsGlobalInWindow(s: seq<Track>, x: Track, cursor: int, g: int, l: int)
    requires 0 <= cursor < |s|
    requires IsFirstMinimum(s, x, cursor + 1, |s|, g)
    requires IsFirstMinimum(s, x, cursor + 1, WindowEnd(s, cursor), l)
    requires g <= WindowEnd(s, cursor) || |s| <= cursor + 1 + MaxLookahead
    ensures l == g
  {
    var w := WindowEnd(s, cursor);
    assert IsFirstMinimum(s, x, cursor + 1, w, g);
    FirstMinimumUnique(s, x, cursor + 1, w, g, l);
  }

  /** Appending never costs more than inserting before the last track: the
      end pays for one neighbour only. */
  lemma AppendNeverWorse(s: seq<Track>, x: Track)
    requires |s| >= 2
    ensures Cost(s, |s|, x) <= Cost(s, |s| - 1, x)
  {
  }

  // ---------------------------------------------------------------------
  // The report shown for each spot

  /** Python's `int()` of a float: truncation toward zero. */
  function Trunc(r: real): (n: int)
    ensures r >= 0.0 ==> n as real <= r < n as real + 1.0
    ensures r < 0.0 ==> n as real - 1.0 < r <= n as real
  {
    if r >= 0.0 then r.Floor else -((-r).Floor)
  }

  /** Python's `divmod(n, 60)`. */
  function DivMod60(n: int): (r: (int, int))
    ensures r.0 * 60 + r.1 == n && 0 <= r.1 < 60
  {
    (n / 60, n % 60)
  }

  /** The seconds the handler reports for position p (lines 264 and 267):
      the durations of s[cursor+1 .. p], the slice end clamped to the order's
      length. */
  function ReportedSecondsAsWritten(s: seq<Track>, cursor: int, p: int): real
    requires 0 <= cursor < p <= |s|
  {
    TotalDuration(s[cursor + 1..Min(p + 1, |s|)])
  }

  /** The time the report is meant to give for position p: the durations of
      the tracks strictly between the current one and the request once it is
      in place, which are s[cursor+1 .. p-1]. */
  function SecondsBefore(s: seq<Track>, cursor: int, p: int): real
    requires 0 <= cursor < p <= |s|
  {
    TotalDuration(s[cursor + 1..p])
  }

  /** After the insertion, exactly the p - cursor - 1 tracks counted by
      SecondsBefore lie between the current track and the request. */
  lemma SecondsBeforeRequest(s: seq<Track>, cursor: int, p: int, x: Track)
    requires 0 <= cursor < p <= |s|
    ensures var t := InsertAt(s, p, x);
      && SecondsBefore(s, cursor, p) == TotalDuration(t[cursor + 1..p])
      && |t[cursor + 1..p]| == p - cursor - 1
      && t[cursor] == s[cursor] && t[p] == x
  {
    var t := InsertAt(s, p, x);
    assert t[cursor + 1..p] == s[cursor + 1..p];
  }

  /** The handler's figure differs exactly by the track at p, which the
      insertion pushes behind the request; at the end of the order the two
      agree. */
  lemma AsWrittenCountsDisplacedTrack(s: seq<Track>, cursor: int, p: int, x: Track)
    requires 0 <= cursor < p <= |s|
    ensures p < |s| ==> ReportedSecondsAsWritten(s, cursor, p) == SecondsBefore(s, cursor, p) + s[p].duration
    ensures p < |s| ==> InsertAt(s, p, x)[p + 1] == s[p]
    ensures p == |s| ==> ReportedSecondsAsWritten(s, cursor, p) == SecondsBefore(s, cursor, p)
  {
    if p < |s| {
      assert s[cursor + 1..p + 1] == s[cursor + 1..p] + [s[p]];
      TotalDurationAppend(s[cursor + 1..p], [s[p]]);
      assert TotalDuration([s[p]]) == s[p].duration;
    }
  }

  /** A concrete order: the current track, then tracks of 200 s and 300 s.
      A request placed before the 300 s track is reported as 500 s away,
      though only the 200 s track plays between the current one and the
      request; the 300 s track now plays after it. */
  lemma AsWrittenExample()
    ensures var a := Track("a", "", 100.0, "8A", 100.0);
      var b := Track("b", "", 110.0, "8A", 200.0);
      var c := Track("c", "", 120.0, "9A", 300.0);
      var x := Track("x", "", 115.0, "8A", 250.0);
      var s := [a, b, c];
      && ReportedSecondsAsWritten(s, 0, 2) == 500.0
      && SecondsBefore(s, 0, 2) == 200.0
      && InsertAt(s, 2, x) == [a, b, x, c]
  {
    var a := Track("a", "", 100.0, "8A", 100.0);
    var b := Track("b", "", 110.0, "8A", 200.0);
    var c := Track("c", "", 120.0, "9A", 300.0);
    var x := Track("x", "", 115.0, "8A", 250.0);
    var s := [a, b, c];
    assert s[1..3] == [b, c] && [b, c][1..] == [c] && [c][1..] == [];
    assert s[1..2] == [b] && [b][1..] == [];
    assert TotalDuration([c]) == 300.0;
    assert TotalDuration([b]) == 200.0;
    assert InsertAt(s, 2, x) == s[..2] + [x] + s[2..];
  }

  /** What the dialog offers for one spot. */
  datatype Spot = Spot(position: int, songs: int, minutes: int, seconds: int)

  /** The distance in songs for position p and the time of the tracks
      between the current one and the request, split into minutes and
      seconds. */
  function Report(s: seq<Track>, cursor: int, p: int): (r: Spot)
    requires 0 <= cursor < p <= |s|
    ensures r.position == p && r.songs == p - cursor && r.songs >= 1
    ensures r.minutes * 60 + r.seconds == Trunc(SecondsBefore(s, cursor, p))
    ensures 0 <= r.seconds < 60
  {
    var (m, sec) := DivMod60(Trunc(SecondsBefore(s, cursor, p)));
    Spot(p, p - cursor, m, sec)
  }

  /** The two spots the dialog offers. */
  datatype Proposal = Proposal(best: Spot, nearby: Spot)

  /** Lines 237-268: both scans from the position after the cursor, and the
      report for each. */
  method Propose(s: seq<Track>, cursor: int, x: Track) returns (r: Proposal)
    requires 0 <= cursor < |s|
    ensures IsFirstMinimum(s, x, cursor + 1, |s|, r.best.position)
    ensures IsFirstMinimum(s, x, cursor + 1, WindowEnd(s, cursor), r.nearby.position)
    ensures r.best == Report(s, cursor, r.best.position)
    ensures r.nearby == Report(s, cursor, r.nearby.position)
  {
    var g, _ := FirstMinimum(s, x, cursor + 1, |s|);
    var l, _ := FirstMinimum(s, x, cursor + 1, WindowEnd(s, cursor));
    r := Proposal(Report(s, cursor, g), Report(s, cursor, l));
  }

  // ---------------------------------------------------------------------
  // The worked example

  /** Tempos 100, 110, 120 in keys 8A, 8A, 9A with the cursor on the first
      track; a request at 115 in 8A costs 20, 11 and 6 at positions 1, 2
      and 3, so both scans settle on the end. */
  lemma WorkedExample()
    ensures var s := [Track("a", "", 100.0, "8A", 0.0), Track("b", "", 110.0, "8A", 0.0),
                      Track("c", "", 120.0, "9A", 0.0)];
      var x := Track("r", "", 115.0, "8A", 0.0);
      && Cost(s, 1, x) == 20.0 && Cost(s, 2, x) == 11.0 && Cost(s, 3, x) == 6.0
      && WindowEnd(s, 0) == 3
      && IsFirstMinimum(s, x, 1, 3, 3)
  {
    Camelot.WheelExamples();
  }
}
