# DJSidecar setlist engine in Dafny

DJSidecar is a desktop DJ assistant. It fetches a playlist and looks up each
track's tempo and Camelot key in a local track library. It puts the playlist
in a playing order that keeps the tempo rising and each step harmonically close.
Song requests are slotted into that order at the cheapest position, and the
user keeps notes for each transition. This project models that engine and
proves what it promises:

- `tracks.dfy` (module `Tracks`): the track record and the list idioms the
  engine uses: `sum` of durations, `next(... for x in s if p(x))`, `list.insert`.
- `text.dfy` (module `Text`): `str.strip`, `str.lower` and substring search on
  the request text.
- `camelot.dfy` (module `Camelot`): `camelot_distance`, including Python's
  `int()` parse of the key's number, and a proof that on well-formed keys it is
  the compatibility read off the Camelot wheel.
- `sequencer.dfy` (module `Sequencer`): `hybrid_order`. The stable tempo sort
  and the greedy pick are specification functions. The source's `while pool`
  loop is a method proved equal to them. The result is proved to be a
  permutation, to start at the earliest slowest track, and to make a greedy
  step at every position.
- `insertion.dfy` (module `Insertion`): the insertion search of
  `handle_request`. It covers the cost of a position, the global and the
  look-ahead first-minimum scans, and the songs/minutes/seconds report.
- `cover_carousel.dfy` (module `Carousel`): class `CoverCarousel`, the playback
  cursor with `next`, `previous`, the clamp in `set_items` and the focus rule.
- `main_window.dfy` (module `Window`): class `MainWindow`. It covers the
  playlist enrichment loop, the initial order, the notes store, and the request
  handler with the dialog answers as inputs.

Tempos and durations are `real`, so arithmetic is exact. Python's `int()` of
a float is modelled as truncation toward zero, and `divmod(n, 60)` as
Euclidean division.

## Model

| member | source | states |
|---|---|---|
| Tracks.TotalDurationAppend | ui/main_window.py:264 | the duration sum of two concatenated slices is the sum of their sums |
| Tracks.FirstWhere | ui/main_window.py:230-231 | the result is the first index satisfying the predicate, and None exactly when no element does |
| Tracks.InsertAt | ui/main_window.py:297 | `list.insert`: one longer, the element at pos, earlier elements unchanged, later ones shifted right by one, same multiset plus the element |
| Text.TrimStartSpec | ui/main_window.py:227 | the left strip is a suffix, every dropped character is whitespace, and it starts with a non-space |
| Text.TrimEndSpec | ui/main_window.py:227 | the right strip is a prefix, every dropped character is whitespace, and it ends with a non-space |
| Text.StripSpec | ui/main_window.py:227 | `strip()` returns a slice `s[i..j]` of the text with only whitespace outside it, leaves no whitespace at either end, never grows, and changes nothing on a string without surrounding whitespace |
| Text.LowerChar | ui/main_window.py:227 | a capital becomes its own small letter (32 code points on), no capital is left, and every other character is kept |
| Text.LowerSpec | ui/main_window.py:227 | `lower()` leaves no capital, turns each capital into its own small letter, and keeps every other character in place |
| Camelot.DigitChar | utils/setlist_order.py:16-17 | the digit written for d reads back as d |
| Camelot.Distance | utils/setlist_order.py:5-30 | the score is 0, 1 or 2, and it is 0 exactly when the two key strings are equal |
| Camelot.DistanceSymmetric | utils/setlist_order.py:12-30 | swapping the keys does not change the score |
| Camelot.EmptyKeyIsWorst | utils/setlist_order.py:12-13 | exactly one empty key scores 2 |
| Camelot.UnreadableKeyIsWorst | utils/setlist_order.py:15-19 | a key whose number prefix `int()` rejects scores 2 against any other distinct key instead of raising |
| Camelot.DigitRunNeedsLeadingDigit | utils/setlist_order.py:16-17 | after the sign, `int()` reads nothing that does not start with a digit |
| Camelot.SeparatorIsNotInt | utils/setlist_order.py:16-17 | `int()` rejects a number prefix starting with one of the separators 0x1C..0x1F, which it does not skip as whitespace |
| Camelot.DecimalIsDigits | utils/setlist_order.py:16-17 | the decimal spelling of n is all digits and its digit run reads back as n |
| Camelot.ParseDecimal | utils/setlist_order.py:16-17 | `int()` of the decimal spelling of n is n |
| Camelot.Notation | utils/setlist_order.py:5-11 | a wheel key is spelled with at least a number and a letter |
| Camelot.NotationParts | utils/setlist_order.py:16-17 | the number prefix of a spelled wheel key parses to its number, and the last letter is its mode |
| Camelot.NotationInjective | utils/setlist_order.py:16-17 | distinct wheel keys are spelled differently |
| Camelot.NeighbourTestIsWheelAdjacency | utils/setlist_order.py:26-28 | for numbers 1..12, "one apart or the pair {1, 12}" is adjacency on the twelve-step circle |
| Camelot.DistanceOnWheel | utils/setlist_order.py:5-30 | on well-spelled keys the score is the wheel compatibility: 0 for the same key, 1 for the relative key or a neighbour in the same mode, 2 otherwise |
| Camelot.WheelExamples | utils/setlist_order.py:7-10 | 8A/8A scores 0, 8A/8B 1, 8A/9A 1, 1A/12A 1 and 8A/3B 2 |
| Camelot.IrregularExamples | utils/setlist_order.py:12-19 | two empty keys score 0, one empty key 2, the numberless "A" 2, "08A" against "8A" 2, and "\x1c8A" against "9A" 2 |
| Sequencer.InsertByTempoPermutes | utils/setlist_order.py:41 | one step of the tempo sort adds exactly the inserted track |
| Sequencer.SortByTempoPermutes | utils/setlist_order.py:41 | the tempo sort is a permutation of its input |
| Sequencer.InsertByTempoSorted | utils/setlist_order.py:41 | inserting into a tempo-sorted list keeps it sorted |
| Sequencer.InsertByTempoStable | utils/setlist_order.py:41 | inserting keeps the input order among tracks of equal tempo |
| Sequencer.SortByTempoCorrect | utils/setlist_order.py:41 | the sort orders by tempo and is stable: for each tempo, those tracks keep their input order |
| Sequencer.EarliestSlowest | utils/setlist_order.py:41 | the index of the first track of minimum tempo |
| Sequencer.SortHeadIsEarliestSlowest | utils/setlist_order.py:41-48 | the sorted pool starts with the earliest of the slowest input tracks |
| Sequencer.NotSlowerMembers | utils/setlist_order.py:53 | the filtered pool holds exactly the pool's tracks at least as fast as the current one |
| Sequencer.NotSlowerKeepsOrder | utils/setlist_order.py:53 | the comprehension keeps pool order: filtering a concatenation filters each part in place |
| Sequencer.NotSlowerPosition | utils/setlist_order.py:53 | the i-th filtered track sits at a pool position k, and the tracks filtered before it are exactly those kept from the pool before k |
| Sequencer.Candidates | utils/setlist_order.py:53-55 | the candidates are empty only when the pool is |
| Sequencer.CandidatesAreEligible | utils/setlist_order.py:53-55 | a track is a candidate iff it is in the pool and is not slower, or no track in the pool is at least as fast |
| Sequencer.FirstLeast | utils/setlist_order.py:57-60 | Python's `min`: an index of the least score, and every earlier score is strictly larger |
| Sequencer.Closeness | utils/setlist_order.py:57-60 | one score per candidate |
| Sequencer.PickIndex | utils/setlist_order.py:57-60 | the pick is a position of the candidate list |
| Sequencer.Pick | utils/setlist_order.py:53-60 | the pick comes from the pool |
| Sequencer.PickIsClosest | utils/setlist_order.py:53-60 | the pick is eligible, and no eligible track is harmonically closer |
| Sequencer.PickIsFirstClosest | utils/setlist_order.py:57-60 | ties go to the earliest candidate: every candidate before the pick is strictly farther |
| Sequencer.PickIsFirstClosestInPool | utils/setlist_order.py:53-60 | the same tie-break in the tempo-sorted pool's order: the pick sits at a pool position before which every eligible track is strictly farther |
| Sequencer.IndexOf | utils/setlist_order.py:62 | the position of the first occurrence: it holds the track and nothing before it does |
| Sequencer.RemoveFirst | utils/setlist_order.py:62 | `list.remove` drops the first occurrence of the track and keeps the other tracks in their order |
| Sequencer.RemoveFirstPermutes | utils/setlist_order.py:62 | `list.remove` removes exactly one copy of the track |
| Sequencer.NextTrack | utils/setlist_order.py:53-60 | one loop step's choice is the greedy pick |
| Sequencer.HybridOrder | utils/setlist_order.py:33-65 | the loop produces exactly the greedy order of the tempo-sorted pool |
| Sequencer.GreedyFromIsPermutation | utils/setlist_order.py:52-63 | the greedy loop emits exactly the pool |
| Sequencer.GreedyOrderIsPermutation | utils/setlist_order.py:33-65 | the order is a permutation of the input, and it is empty iff the input is |
| Sequencer.GreedyOrderStart | utils/setlist_order.py:41-49 | the order starts with the earliest of the slowest input tracks |
| Sequencer.FirstPickIsGreedyStep | utils/setlist_order.py:53-61 | the first track after the current one is eligible and no eligible remaining track is closer |
| Sequencer.GreedyFromSteps | utils/setlist_order.py:52-63 | every step of the loop's output is a greedy step |
| Sequencer.GreedyOrderSteps | utils/setlist_order.py:33-65 | at every position of the order, tempo does not drop while a remaining track is at least as fast, and the next track is the closest eligible one |
| Insertion.RealAbs | ui/main_window.py:244 | `abs` is non-negative and is the value or its negation |
| Insertion.PairCost | ui/main_window.py:243-247 | a neighbour's cost is non-negative, and zero exactly for the same tempo and key |
| Insertion.FirstMinimum | ui/main_window.py:240-260 | each scan settles on a position of its range that costs no more than any other and strictly less than every earlier one |
| Insertion.FirstMinimumUnique | ui/main_window.py:248-249 | the first minimum of a range is unique |
| Insertion.WindowEnd | ui/main_window.py:252 | the look-ahead range ends at the order's end or MAX_LOOKAHEAD positions past the first candidate |
| Insertion.LocalNoCheaperThanGlobal | ui/main_window.py:240-260 | the look-ahead spot never costs less than the global one |
| Insertion.LocalIsGlobalInWindow | ui/main_window.py:240-260 | the look-ahead spot is the global one when the latter lies in the window, in particular when the order ends within it |
| Insertion.AppendNeverWorse | ui/main_window.py:245-247 | appending never costs more than inserting before the last track |
| Insertion.Trunc | ui/main_window.py:265 | `int()` of a float truncates toward zero |
| Insertion.DivMod60 | ui/main_window.py:265 | `divmod(n, 60)`: m * 60 + s == n with 0 <= s < 60 |
| Insertion.SecondsBeforeRequest | ui/main_window.py:262-268 | the corrected seconds are the durations of the p - cursor - 1 tracks that lie between the current track and the inserted request |
| Insertion.AsWrittenCountsDisplacedTrack | ui/main_window.py:264 | for a spot before the end the handler's seconds add the track the insertion pushes behind the request; at the end the two figures agree |
| Insertion.AsWrittenExample | ui/main_window.py:264 | for durations 100, 200, 300 s, cursor 0 and a request at position 2, 500 s is reported though only the 200 s track lies between |
| Insertion.Report | ui/main_window.py:262-268 | distance p - cursor >= 1 songs, and minutes and seconds with m * 60 + s == int(seconds of the tracks between the cursor and the request), 0 <= s < 60 |
| Insertion.Propose | ui/main_window.py:237-268 | the best and the nearby spots are the first minima of the global and the look-ahead ranges, each with its report |
| Insertion.WorkedExample | ui/main_window.py:240-249 | tempos 100/110/120 in 8A/8A/9A, request 115/8A after the first track: costs 20, 11 and 6, and the end wins |
| Carousel.MoveRules | widgets/cover_carousel.py:140-148 | next moves on iff the index is before the last position, previous moves back iff it is after the first; otherwise the index stays |
| Carousel.MovesStayInRange | widgets/cover_carousel.py:140-148 | both moves keep an index of a non-empty list in range |
| Carousel.MovesUndoEachOther | widgets/cover_carousel.py:140-148 | previous undoes next away from the end, and next undoes previous away from the start |
| Carousel.FocusNext | widgets/cover_carousel.py:153 | the focused neighbour is min(curr + 1, count - 1), the current track or the next one |
| Carousel.CoverCarousel.constructor | widgets/cover_carousel.py:82-120 | the carousel starts on the first of the given items |
| Carousel.CoverCarousel.SetItems | widgets/cover_carousel.py:122-138 | the new items, the index clamped to the last position, unchanged when the list does not shrink, -1 for an empty list |
| Carousel.CoverCarousel.Next | widgets/cover_carousel.py:140-143 | the index moves on unless at the last track, and stays valid |
| Carousel.CoverCarousel.Previous | widgets/cover_carousel.py:145-148 | the index moves back unless at the first track, and stays valid |
| Carousel.CoverCarousel.FocusPair | widgets/cover_carousel.py:150-153 | the two enlarged covers are the current one and the one beside it, both in range |
| Window.AsLibraryItem | ui/main_window.py:47-52 | a library track keeps its fields and gets duration 0 |
| Window.EnrichedFromFirstExactMatch | ui/main_window.py:57-68 | an entry keeps title and artist, takes tempo and key from the first library track with exactly its title, and gets 0 and "" when none has it |
| Window.EnrichAll | ui/main_window.py:57-69 | enrichment keeps the playlist's length and order, entry by entry |
| Window.Enrich | ui/main_window.py:57-69 | the loop builds exactly the enriched playlist |
| Window.NotesKey | ui/main_window.py:160-165 | the key is the current title and the title at the carousel's focus-next rule |
| Window.SaveThenLoad | ui/main_window.py:160-176 | a save then a load of the same key gives the text back, and other keys are unchanged |
| Window.LoadKeepsNotes | ui/main_window.py:168-176 | the save triggered by a load changes no key's notes |
| Window.EmptyQueryIffBlank | ui/main_window.py:227-229 | a request is ignored exactly when its text is blank |
| Window.RequestMatch | ui/main_window.py:230-235 | the match is the first library track whose lower-cased title contains the query, and None when no title does |
| Window.MainWindow.constructor | ui/main_window.py:47-80 | the library with zero durations, the enriched playlist in greedy order (a permutation of it), the carousel on its first track, no notes |
| Window.MainWindow.OnIndexChanged | ui/main_window.py:155-158 | the new cursor, and the notes of its key shown and saved back |
| Window.MainWindow.EditNotes | ui/main_window.py:111 | typing in the notes box saves the new text under the current key, and no other key changes |
| Window.MainWindow.SaveCurrentNotes | ui/main_window.py:160-166 | the text goes under the current key, and no other key changes |
| Window.MainWindow.UpdateTransitionNotes | ui/main_window.py:168-176 | the box shows the current key's notes, "" when none, and the text is saved back under that key |
| Window.MainWindow.HandleRequest | ui/main_window.py:226-297 | blank text, no match, cancel or no confirmation leave the order alone; otherwise the first match goes in at the chosen first-minimum spot after the cursor, and the cursor and its track stay |
| Window.MainWindow.InsertRequest | ui/main_window.py:297-298 | the order gets the request at p, the carousel gets the new order, and its cursor stays on the same track |

## Left out

- The Qt user interface: widgets, layout, fonts, the completer, and the `QMessageBox` and `QInputDialog` dialogs. The button pressed and the confirmation are inputs of `HandleRequest`.
- The matplotlib energy curve (ui/main_window.py:84-93), which is presentation only.
- The queue dock and its list refresh. The refresh after an insertion (ui/main_window.py:299) reads `self.queue_search`, which the window never defines, so it would raise after the insert has happened.
- The cover widgets, their sizes, the scroll animation and the centring geometry (widgets/cover_carousel.py:155-176). Also the thumbnail field and its HTTP download.
- The SoundCloud fetch and the SQLite track database are I/O. Their results are the constructor's parameters. The database's `bpm or 0` and `key or ""` normalisation already holds for the model's `Track` values. utils/soundcloud_import.py and utils/track_db.py are not part of this model.
- Floating-point rounding. Tempos and durations are exact reals, and `float('inf')` is replaced by starting each scan at its first position.
- Unicode: whitespace is the ASCII set each operation uses. `strip()` skips space, `\t`..`\r` and 0x1C..0x1F (`Text.IsSpace`); `int()` skips only space and `\t`..`\r` (`Camelot.IntSpace`) and rejects 0x1C..0x1F. The non-ASCII whitespace both also skip (0x85, 0xA0 and the Unicode spaces) is not modelled. `lower()` maps only ASCII capitals, and `int()` accepts only ASCII digits.
- Camelot.Distance: `int()` in current CPython raises `ValueError` on a number of more than 4300 digits, so the source scores such a key 2; the model's `ParseInt` reads numbers of any length, so such a key can score 1 here.
- Window.MainWindow.constructor: requires a non-empty playlist. `update_focus` looks up the widget at index 0, which an empty carousel does not have.
- Window.MainWindow.OnIndexChanged: models the slot the window intends to connect. `CoverCarousel` declares no `indexChanged` signal, so the `connect` on ui/main_window.py:81 would raise. The window's own `current_index` then never follows the carousel; the request handler reads the carousel's index, as the model does.
- Aliasing: the window and the carousel share one list object. The model keeps two `seq` fields and re-synchronises them with `SetItems` after each insertion.
- Sequencer.HybridOrder: its `ensures` is equality with `GreedyOrder`. The permutation, first-track and greedy-step properties are the lemmas about `GreedyOrder`.
- Insertion.Report: reports the corrected seconds `SecondsBefore`, not the slice the handler sums; see Findings. `ReportedSecondsAsWritten` is the handler's figure.
- Insertion.Propose: both offered spots carry `Report`'s corrected seconds, not the handler's figure for a spot before the end.
- Window.MainWindow.HandleRequest: the `spot` of an insertion carries `Report`'s corrected seconds, not the figure the dialogs show.
- Carousel.CoverCarousel.SetItems: accepts an empty list and sets the index to -1, as line 136 does; the `update_focus` call that follows would then fail looking up the widget at index -1 (widgets/cover_carousel.py:166). The window never passes an empty list.

## Findings

| source | as written | input that shows it | evidently intended | confidence | as-written member | corrected member |
|---|---|---|---|---|---|---|
| ui/main_window.py:264 (and 267) | the seconds reported for a spot sum `ordered_items[curr+1:idx+1]`. For a spot before the end this includes the track at `idx`, which `insert(idx, match)` on line 297 pushes behind the request | durations 100, 200, 300 s, cursor 0, request inserted at position 2: 500 s reported, but only the 200 s track lies between the current track and the request | the durations of the tracks strictly between the current track and the request, `ordered_items[curr+1:idx]`, the time before the request once the current track ends; at the end of the order this is what the code computes | medium, not executed | Insertion.AsWrittenExample | Insertion.SecondsBeforeRequest |
