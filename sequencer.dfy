/** The greedy sequencer of utils/setlist_order.py (`hybrid_order`): sort the
    tracks by tempo, start from the slowest, then repeatedly take the
    harmonically closest of the remaining tracks that are not slower than the
    current one (or of all remaining tracks when every one is slower). */
module Sequencer {
  import opened Tracks
  import Camelot

  // ---------------------------------------------------------------------
  // Python's sorted(tracks, key=bpm): a stable sort by tempo

  /** Places x before the first element that is not slower than x. */
  function InsertByTempo(x: Track, s: seq<Track>): seq<Track>
  {
    if s == [] || x.bpm <= s[0].bpm then [x] + s
    else [s[0]] + InsertByTempo(x, s[1..])
  }

  function SortByTempo(s: seq<Track>): seq<Track>
  {
    if s == [] then [] else InsertByTempo(s[0], SortByTempo(s[1..]))
  }

  lemma {:induction false} InsertByTempoPermutes(x: Track, s: seq<Track>)
    ensures multiset(InsertByTempo(x, s)) == multiset{x} + multiset(s)
  {
    if s != [] && x.bpm > s[0].bpm {
      InsertByTempoPermutes(x, s[1..]);
      assert s == [s[0]] + s[1..];
    }
  }

  /** Sorting keeps every track, as often as it occurs. */
  lemma {:induction false} SortByTempoPermutes(s: seq<Track>)
    ensures multiset(SortByTempo(s)) == multiset(s)
    ensures |SortByTempo(s)| == |s|
  {
    if s != [] {
      SortByTempoPermutes(s[1..]);
      InsertByTempoPermutes(s[0], SortByTempo(s[1..]));
      assert s == [s[0]] + s[1..];
    }
    assert |multiset(SortByTempo(s))| == |SortByTempo(s)|;
  }

  ghost predicate TempoSorted(s: seq<Track>)
  {
    forall i, j :: 0 <= i < j < |s| ==> s[i].bpm <= s[j].bpm
  }

  /** The tracks of s with tempo v, in order. */
  function WithTempo(s: seq<Track>, v: real): seq<Track>
  {
    if s == [] then []
    else (if s[0].bpm == v then [s[0]] else []) + WithTempo(s[1..], v)
  }

  lemma {:induction false} InsertByTempoSorted(x: Track, s: seq<Track>)
    requires TempoSorted(s)
    ensures TempoSorted(InsertByTempo(x, s))
  {
    if s != [] && x.bpm > s[0].bpm {
      InsertByTempoSorted(x, s[1..]);
      var r := InsertByTempo(x, s[1..]);
      InsertByTempoPermutes(x, s[1..]);
      assert forall i :: 0 <= i < |r| ==> s[0].bpm <= r[i].bpm by {
        forall i | 0 <= i < |r| ensures s[0].bpm <= r[i].bpm {
          assert r[i] in multiset(r);
        }
      }
    }
  }

  lemma {:induction false} InsertByTempoStable(x: Track, s: seq<Track>, v: real)
    ensures WithTempo(InsertByTempo(x, s), v) == (if x.bpm == v then [x] else []) + WithTempo(s, v)
  {
    if s == [] || x.bpm <= s[0].bpm {
      assert ([x] + s)[1..] == s;
    } else {
      InsertByTempoStable(x, s[1..], v);
      var r := [s[0]] + InsertByTempo(x, s[1..]);
      assert r[1..] == InsertByTempo(x, s[1..]);
    }
  }

  /** The sort orders by tempo, and it is stable: the tracks of any one tempo
      keep their input order. */
  lemma {:induction false} SortByTempoCorrect(s: seq<Track>)
    ensures TempoSorted(SortByTempo(s))
    ensures forall v :: WithTempo(SortByTempo(s), v) == WithTempo(s, v)
  {
    if s != [] {
      SortByTempoCorrect(s[1..]);
      InsertByTempoSorted(s[0], SortByTempo(s[1..]));
      forall v ensures WithTempo(SortByTempo(s), v) == WithTempo(s, v) {
        InsertByTempoStable(s[0], SortByTempo(s[1..]), v);
      }
    }
  }

  /** Index of the earliest track of least tempo: where the sequence starts. */
  function EarliestSlowest(s: seq<Track>): (i: nat)
    requires s != []
    ensures i < |s|
    ensures forall j :: 0 <= j < |s| ==> s[i].bpm <= s[j].bpm
    ensures forall j :: 0 <= j < i ==> s[j].bpm > s[i].bpm
  {
    if |s| == 1 then 0
    else
      var k := EarliestSlowest(s[1..]) + 1;
      if s[0].bpm <= s[k].bpm then 0 else k
  }

  lemma {:induction false} SortHeadIsEarliestSlowest(s: seq<Track>)
    requires s != []
    ensures SortByTempo(s)[0] == s[EarliestSlowest(s)]
  {
    if |s| > 1 {
      SortHeadIsEarliestSlowest(s[1..]);
      SortByTempoPermutes(s[1..]);
      var r := SortByTempo(s[1..]);
      assert r[0] in multiset(s[1..]);
    }
  }

  // ---------------------------------------------------------------------
  // One greedy step

  /** The comprehension on line 53: remaining tracks not slower than `tempo`. */
  function NotSlower(pool: seq<Track>, tempo: real): seq<Track>
  {
    if pool == [] then []
    else (if pool[0].bpm >= tempo then [pool[0]] else []) + NotSlower(pool[1..], tempo)
  }

  /** The filter keeps the pool's order: filtering a concatenation filters
      each part in place. */
  lemma {:induction false} NotSlowerKeepsOrder(a: seq<Track>, b: seq<Track>, tempo: real)
    ensures NotSlower(a + b, tempo) == NotSlower(a, tempo) + NotSlower(b, tempo)
  {
    if a != [] {
      assert (a + b)[1..] == a[1..] + b;
      NotSlowerKeepsOrder(a[1..], b, tempo);
    } else {
      assert a + b == b;
    }
  }

  /** The i-th filtered track sits at some pool position k, and the tracks
      filtered before it are exactly those the filter keeps from pool[..k]. */
  lemma {:induction false} NotSlowerPosition(pool: seq<Track>, tempo: real, i: nat) returns (k: nat)
    requires i < |NotSlower(pool, tempo)|
    ensures k < |pool| && pool[k] == NotSlower(pool, tempo)[i]
    ensures NotSlower(pool[..k], tempo) == NotSlower(pool, tempo)[..i]
    decreases |pool|
  {
    var f, rest := NotSlower(pool, tempo), NotSlower(pool[1..], tempo);
    if pool[0].bpm >= tempo && i == 0 {
      k := 0;
      assert pool[..0] == [];
    } else {
      var j := if pool[0].bpm >= tempo then i - 1 else i;
      var k' := NotSlowerPosition(pool[1..], tempo, j);
      k := k' + 1;
      assert pool[..k][1..] == pool[1..][..k'];
      assert pool[..k][0] == pool[0];
      if pool[0].bpm >= tempo {
        assert f[..i] == [pool[0]] + rest[..j];
      }
    }
  }

  lemma {:induction false} NotSlowerMembers(pool: seq<Track>, tempo: real)
    ensures forall t :: t in NotSlower(pool, tempo) <==> t in pool && t.bpm >= tempo
  {
    if pool != [] {
      NotSlowerMembers(pool[1..], tempo);
      assert pool == [pool[0]] + pool[1..];
    }
  }

  /** The tracks the next pick is drawn from (lines 53-55). */
  function Candidates(current: Track, pool: seq<Track>): (c: seq<Track>)
    ensures c == [] <==> pool == []
  {
    var c := NotSlower(pool, current.bpm);
    if c == [] then pool else c
  }

  /** Every remaining track is slower than `tempo`. */
  ghost predicate AllSlower(rest: seq<Track>, tempo: real)
  {
    forall t :: t in rest ==> t.bpm < tempo
  }

  /** May t follow `current` when `rest` remains: it is not slower, or nothing
      that remains is. */
  ghost predicate Eligible(current: Track, t: Track, rest: seq<Track>)
  {
    current.bpm <= t.bpm || AllSlower(rest, current.bpm)
  }

  /** The candidates are exactly the eligible remaining tracks. */
  lemma CandidatesAreEligible(current: Track, pool: seq<Track>)
    ensures forall t :: t in Candidates(current, pool) <==> t in pool && Eligible(current, t, pool)
  {
    var c := NotSlower(pool, current.bpm);
    NotSlowerMembers(pool, current.bpm);
    if c == [] {
      assert AllSlower(pool, current.bpm);
    } else {
      assert c[0] in c;
      assert !AllSlower(pool, current.bpm);
    }
  }

  /** Python's `min` over the key values `scores`: the index of the first
      least value. */
  function FirstLeast(scores: seq<int>): (i: nat)
    requires scores != []
    ensures i < |scores|
    ensures forall j :: 0 <= j < |scores| ==> scores[i] <= scores[j]
    ensures forall j :: 0 <= j < i ==> scores[j] > scores[i]
  {
    if |scores| == 1 then 0
    else
      var last := |scores| - 1;
      var i := FirstLeast(scores[..last]);
      assert forall j :: 0 <= j < last ==> scores[..last][j] == scores[j];
      if scores[last] < scores[i] then last else i
  }

  /** The harmonic distance of each candidate from `key`: the key function
      handed to `min` on line 57. */
  function Closeness(key: string, cands: seq<Track>): (scores: seq<int>)
    ensures |scores| == |cands|
  {
    seq(|cands|, j requires 0 <= j < |cands| => Camelot.Distance(key, cands[j].key))
  }

  lemma ClosenessScores(key: string, cands: seq<Track>)
    ensures forall j :: 0 <= j < |cands| ==> Closeness(key, cands)[j] == Camelot.Distance(key, cands[j].key)
  {
  }

  /** Where in the candidates the pick sits. */
  function PickIndex(current: Track, pool: seq<Track>): (i: nat)
    requires pool != []
    ensures i < |Candidates(current, pool)|
  {
    var c := Candidates(current, pool);
    FirstLeast(Closeness(current.key, c))
  }

  /** The track the sequencer plays after `current` when `pool` remains:
      the first of the candidates at least harmonic distance. */
  function Pick(current: Track, pool: seq<Track>): (b: Track)
    requires pool != []
    ensures b in pool
  {
    var c := Candidates(current, pool);
    var i := PickIndex(current, pool);
    CandidatesAreEligible(current, pool);
    assert c[i] in c;
    c[i]
  }

  /** The pick keeps or raises the tempo unless every remaining track is
      slower, and no eligible track is harmonically closer. */
  lemma PickIsClosest(current: Track, pool: seq<Track>)
    requires pool != []
    ensures var b := Pick(current, pool);
      && Eligible(current, b, pool)
      && forall t :: t in pool && Eligible(current, t, pool) ==>
           Camelot.Distance(current.key, b.key) <= Camelot.Distance(current.key, t.key)
  {
    var c := Candidates(current, pool);
    var scores := Closeness(current.key, c);
    var i := PickIndex(current, pool);
    CandidatesAreEligible(current, pool);
    ClosenessScores(current.key, c);
    forall t | t in pool && Eligible(current, t, pool)
      ensures scores[i] <= Camelot.Distance(current.key, t.key)
    {
      assert t in c;
      var j :| 0 <= j < |c| && c[j] == t;
      assert scores[i] <= scores[j];
    }
  }

  /** Ties go to the first candidate in pool order: no candidate before the
      pick is as close. */
  lemma PickIsFirstClosest(current: Track, pool: seq<Track>)
    requires pool != []
    ensures var c, i := Candidates(current, pool), PickIndex(current, pool);
      && c[i] == Pick(current, pool)
      && forall j :: 0 <= j < i ==>
           Camelot.Distance(current.key, c[j].key) > Camelot.Distance(current.key, c[i].key)
  {
    var c := Candidates(current, pool);
    var scores := Closeness(current.key, c);
    var i := PickIndex(current, pool);
    ClosenessScores(current.key, c);
    assert forall j :: 0 <= j < i ==> scores[j] > scores[i];
  }

  /** Position of the first occurrence of x in s. */
  function IndexOf(s: seq<Track>, x: Track): (i: nat)
    requires x in s
    ensures i < |s| && s[i] == x && x !in s[..i]
  {
    if s[0] == x then 0
    else
      var j := IndexOf(s[1..], x);
      assert s[..j + 1] == [s[0]] + s[1..][..j];
      j + 1
  }

  /** The tie-break in the pool's own (tempo-sorted) order: the pick sits at
      some pool position k, and every eligible track before k is strictly
      farther from the current key. */
  lemma PickIsFirstClosestInPool(current: Track, pool: seq<Track>) returns (k: nat)
    requires pool != []
    ensures k < |pool| && pool[k] == Pick(current, pool)
    ensures forall j :: 0 <= j < k && Eligible(current, pool[j], pool) ==>
      Camelot.Distance(current.key, pool[j].key) > Camelot.Distance(current.key, pool[k].key)
  {
    if NotSlower(pool, current.bpm) == [] {
      k := PickIndex(current, pool);
      PickIsFirstClosest(current, pool);
    } else {
      k := PickAmongNotSlower(current, pool);
    }
  }

  /** The case of PickIsFirstClosestInPool where some remaining track is at
      least as fast: the candidates are spread through the pool in order. */
  lemma PickAmongNotSlower(current: Track, pool: seq<Track>) returns (k: nat)
    requires pool != [] && NotSlower(pool, current.bpm) != []
    ensures k < |pool| && pool[k] == Pick(current, pool)
    ensures forall j :: 0 <= j < k && Eligible(current, pool[j], pool) ==>
      Camelot.Distance(current.key, pool[j].key) > Camelot.Distance(current.key, pool[k].key)
  {
    var f, i := NotSlower(pool, current.bpm), PickIndex(current, pool);
    PickIsFirstClosest(current, pool);
    k := NotSlowerPosition(pool, current.bpm, i);
    NotSlowerMembers(pool, current.bpm);
    assert f[0] in f;
    EarlierFastTracksAreEarlierCandidates(pool, current.bpm, i, k);
  }

  /** Every track at least as fast as `tempo` before pool position k is one
      of the first i filtered tracks, when the filter keeps exactly those from
      pool[..k]. */
  lemma EarlierFastTracksAreEarlierCandidates(pool: seq<Track>, tempo: real, i: nat, k: nat)
    requires i < |NotSlower(pool, tempo)| && k < |pool|
    requires NotSlower(pool[..k], tempo) == NotSlower(pool, tempo)[..i]
    ensures forall j :: 0 <= j < k && pool[j].bpm >= tempo ==>
      exists j' :: 0 <= j' < i && NotSlower(pool, tempo)[j'] == pool[j]
  {
    var f := NotSlower(pool, tempo);
    NotSlowerMembers(pool[..k], tempo);
    forall j | 0 <= j < k && pool[j].bpm >= tempo
      ensures exists j' :: 0 <= j' < i && f[j'] == pool[j]
    {
      assert pool[j] == pool[..k][j];
      assert pool[j] in f[..i];
      var j' :| 0 <= j' < i && f[..i][j'] == pool[j];
      assert f[j'] == pool[j];
    }
  }

  /** Python's `list.remove(x)`: drops the first occurrence of x and keeps
      the other tracks in their order. */
  function RemoveFirst(s: seq<Track>, x: Track): (r: seq<Track>)
    requires x in s
    ensures |r| == |s| - 1
    ensures var i := IndexOf(s, x); r == s[..i] + s[i + 1..]
  {
    if s[0] == x then s[1..]
    else
      var j := IndexOf(s[1..], x);
      assert s[..j + 1] == [s[0]] + s[1..][..j] && s[j + 2..] == s[1..][j + 1..];
      [s[0]] + RemoveFirst(s[1..], x)
  }

  lemma {:induction false} RemoveFirstPermutes(s: seq<Track>, x: Track)
    requires x in s
    ensures multiset(RemoveFirst(s, x)) == multiset(s) - multiset{x}
  {
    assert s == [s[0]] + s[1..];
    if s[0] != x {
      RemoveFirstPermutes(s[1..], x);
    }
  }

  // ---------------------------------------------------------------------
  // The whole order

  /** The tracks the sequencer appends after `current` while `pool` remains. */
  function GreedyFrom(current: Track, pool: seq<Track>): seq<Track>
    decreases |pool|
  {
    if pool == [] then []
    else
      var best := Pick(current, pool);
      [best] + GreedyFrom(best, RemoveFirst(pool, best))
  }

  /** The play order `hybrid_order` produces. */
  function GreedyOrder(tracks: seq<Track>): seq<Track>
  {
    var pool := SortByTempo(tracks);
    if pool == [] then [] else [pool[0]] + GreedyFrom(pool[0], pool[1..])
  }

  /** The body of the loop on lines 53-59: the candidates, then the first
      of them at least harmonic distance from the current track. */
  method NextTrack(current: Track, pool: seq<Track>) returns (best: Track)
    requires pool != []
    ensures best == Pick(current, pool)
  {
    var candidates := Candidates(current, pool);
    best := candidates[FirstLeast(Closeness(current.key, candidates))];
  }

  /** The loop of lines 52-63 over a pool that starts as the tempo-sorted
      tracks. */
  method HybridOrder(tracks: seq<Track>) returns (sequence: seq<Track>)
    ensures sequence == GreedyOrder(tracks)
  {
    var pool := SortByTempo(tracks);
    GreedyOrderUnfold(tracks);
    sequence := [];
    if pool != [] {
      var current := pool[0];
      pool := pool[1..];
      sequence := sequence + [current];
      while pool != []
        invariant sequence + GreedyFrom(current, pool) == GreedyOrder(tracks)
        decreases |pool|
      {
        var best := NextTrack(current, pool);
        GreedyFromUnfold(sequence, current, pool);
        sequence := sequence + [best];
        pool := RemoveFirst(pool, best);
        current := best;
      }
    }
  }

  // ---------------------------------------------------------------------
  // What the order promises

  /** One turn of the loop: the pick moves from the pool to the sequence. */
  lemma GreedyFromUnfold(sequence: seq<Track>, current: Track, pool: seq<Track>)
    requires pool != []
    ensures var best := Pick(current, pool);
      && best in pool
      && sequence + GreedyFrom(current, pool) == (sequence + [best]) + GreedyFrom(best, RemoveFirst(pool, best))
  {
    var best := Pick(current, pool);
    var later := GreedyFrom(best, RemoveFirst(pool, best));
    assert GreedyFrom(current, pool) == [best] + later;
    assert sequence + ([best] + later) == (sequence + [best]) + later;
  }

  /** The order is the slowest track, then what the greedy loop appends. */
  lemma GreedyOrderUnfold(tracks: seq<Track>)
    ensures var pool := SortByTempo(tracks);
      GreedyOrder(tracks) == if pool == [] then [] else [pool[0]] + GreedyFrom(pool[0], pool[1..])
  {
  }

  lemma {:induction false} GreedyFromIsPermutation(current: Track, pool: seq<Track>)
    ensures multiset(GreedyFrom(current, pool)) == multiset(pool)
    decreases |pool|
  {
    if pool != [] {
      var best := Pick(current, pool);
      GreedyFromIsPermutation(best, RemoveFirst(pool, best));
      RemoveFirstPermutes(pool, best);
    }
  }

  /** The order holds every input track exactly as often as the input does;
      no input gives no order. */
  lemma GreedyOrderIsPermutation(tracks: seq<Track>)
    ensures multiset(GreedyOrder(tracks)) == multiset(tracks)
    ensures |GreedyOrder(tracks)| == |tracks|
    ensures tracks == [] <==> GreedyOrder(tracks) == []
  {
    var pool := SortByTempo(tracks);
    SortByTempoPermutes(tracks);
    if pool != [] {
      GreedyFromIsPermutation(pool[0], pool[1..]);
      assert pool == [pool[0]] + pool[1..];
    }
    assert |multiset(GreedyOrder(tracks))| == |GreedyOrder(tracks)|;
  }

  /** The order starts with the earliest track of least tempo. */
  lemma GreedyOrderStart(tracks: seq<Track>)
    requires tracks != []
    ensures GreedyOrder(tracks)[0] == tracks[EarliestSlowest(tracks)]
  {
    SortByTempoPermutes(tracks);
    SortHeadIsEarliestSlowest(tracks);
  }

  /** The step from `current` to the first of `rest`, the tracks still to
      play: it keeps or raises the tempo unless every remaining track is
      slower, and no eligible remaining track is harmonically closer. */
  ghost predicate GreedyStep(current: Track, rest: seq<Track>)
    requires rest != []
  {
    && Eligible(current, rest[0], rest)
    && forall t :: t in rest && Eligible(current, t, rest) ==>
         Camelot.Distance(current.key, rest[0].key) <= Camelot.Distance(current.key, t.key)
  }

  /** Position k of the order `r` is a greedy step. */
  ghost predicate GreedyStepAt(r: seq<Track>, k: int)
    requires 0 <= k < |r| - 1
  {
    GreedyStep(r[k], r[k + 1..])
  }

  /** The first pick from `pool` is a greedy step over what then remains. */
  lemma FirstPickIsGreedyStep(current: Track, pool: seq<Track>)
    requires pool != []
    ensures GreedyStep(current, GreedyFrom(current, pool))
  {
    var r := GreedyFrom(current, pool);
    PickIsClosest(current, pool);
    GreedyFromIsPermutation(current, pool);
    assert r[0] == Pick(current, pool);
    StepOverSameTracks(current, pool, r);
  }

  /** A step that is greedy over `pool` is greedy over any arrangement of the
      same tracks. */
  lemma StepOverSameTracks(current: Track, pool: seq<Track>, r: seq<Track>)
    requires r != [] && multiset(r) == multiset(pool)
    requires Eligible(current, r[0], pool)
    requires forall t :: t in pool && Eligible(current, t, pool) ==>
      Camelot.Distance(current.key, r[0].key) <= Camelot.Distance(current.key, t.key)
    ensures GreedyStep(current, r)
  {
    assert forall t :: t in r <==> t in pool by {
      forall t ensures t in r <==> t in pool {
        assert t in r <==> t in multiset(r);
      }
    }
    assert AllSlower(r, current.bpm) <==> AllSlower(pool, current.bpm);
  }

  lemma {:induction false} GreedyFromSteps(current: Track, pool: seq<Track>)
    ensures var r := [current] + GreedyFrom(current, pool);
      forall k :: 0 <= k < |r| - 1 ==> GreedyStepAt(r, k)
    decreases |pool|
  {
    if pool != [] {
      var best := Pick(current, pool);
      var tail := GreedyFrom(current, pool);
      assert tail == [best] + GreedyFrom(best, RemoveFirst(pool, best));
      GreedyFromSteps(best, RemoveFirst(pool, best));
      FirstPickIsGreedyStep(current, pool);
      var r := [current] + tail;
      forall k | 0 <= k < |r| - 1 ensures GreedyStepAt(r, k) {
        if k == 0 {
          assert r[1..] == tail;
        } else {
          assert GreedyStepAt(tail, k - 1);
          assert r[k] == tail[k - 1] && r[k + 1..] == tail[k..];
        }
      }
    }
  }

  /** Each step of the order obeys the greedy rule: tempo never drops while a
      remaining track is at least as fast, and the next track is the
      harmonically closest of the tracks it could have been. */
  lemma GreedyOrderSteps(tracks: seq<Track>)
    ensures var r := GreedyOrder(tracks);
      forall k :: 0 <= k < |r| - 1 ==> GreedyStepAt(r, k)
  {
    var pool := SortByTempo(tracks);
    if pool != [] {
      GreedyFromSteps(pool[0], pool[1..]);
      assert GreedyOrder(tracks) == [pool[0]] + GreedyFrom(pool[0], pool[1..]);
    }
  }
}
