/** The track record shared by the sequencer, the insertion search and the
    window, with the few sequence operations they all use. */
module Tracks {

  datatype Option<T> = None | Some(value: T)

  /** A playlist entry as the window keeps it (a Python dict with these keys).
      `bpm` and `key` come from the track library, 0 and "" when the library
      does not know the title; `duration` is in seconds. */
  datatype Track = Track(title: string, artist: string, bpm: real, key: string, duration: real)

  function Min(a: int, b: int): int { if a <= b then a else b }

  /** Python's `sum(t["duration"] for t in s)`. */
  function TotalDuration(s: seq<Track>): real
  {
    if s == [] then 0.0 else s[0].duration + TotalDuration(s[1..])
  }

  lemma {:induction false} TotalDurationAppend(a: seq<Track>, b: seq<Track>)
    ensures TotalDuration(a + b) == TotalDuration(a) + TotalDuration(b)
  {
    if a != [] {
      assert (a + b)[1..] == a[1..] + b;
      TotalDurationAppend(a[1..], b);
    } else {
      assert a + b == b;
    }
  }

  /** Index of the first element of `s` that satisfies `p`: the
      `next((x for x in s if p(x)), None)` idiom of the window. */
  function FirstWhere(s: seq<Track>, p: Track -> bool): (r: Option<nat>)
    ensures r.Some? ==> r.value < |s| && p(s[r.value])
    ensures r.Some? ==> forall j :: 0 <= j < r.value ==> !p(s[j])
    ensures r.None? <==> forall j :: 0 <= j < |s| ==> !p(s[j])
  {
    if s == [] then None
    else if p(s[0]) then Some(0)
    else match FirstWhere(s[1..], p)
      case None => None
      case Some(i) => Some(i + 1)
  }

  /** Python's `list.insert(pos, x)` for a position inside the list. */
  function InsertAt(s: seq<Track>, pos: int, x: Track): (r: seq<Track>)
    requires 0 <= pos <= |s|
    ensures |r| == |s| + 1 && r[pos] == x
    ensures forall i :: 0 <= i < pos ==> r[i] == s[i]
    ensures forall i :: pos <= i < |s| ==> r[i + 1] == s[i]
    ensures multiset(r) == multiset(s) + multiset{x}
  {
    assert s == s[..pos] + s[pos..];
    s[..pos] + [x] + s[pos..]
  }
}
