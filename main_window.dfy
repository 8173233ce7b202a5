/** The bookkeeping of ui/main_window.py (`MainWindow`): the playlist
    enrichment from the track library, the initial order, the transition
    notes kept per (current, next) pair of titles, and the song-request
    handler that inserts a library track into the order. Dialog outcomes
    (which button was pressed, whether the insertion was confirmed) are
    inputs; widgets, layout and plotting are not modelled. */
module Window {
  import opened Tracks
  import Text
  import Sequencer
  import Insertion
  import Carousel

  // ---------------------------------------------------------------------
  // Enrichment (lines 47-69)

  /** An entry of the fetched playlist: its title, artist and duration in
      milliseconds, each already defaulted ("", "", 0) where the entry has
      none. */
  datatype PlaylistEntry = PlaylistEntry(title: string, artist: string, durationMs: real)

  /** A library track as the window keeps it (lines 49-52): its own fields
      with a duration of 0. */
  function AsLibraryItem(t: Track): (r: Track)
    ensures r.title == t.title && r.artist == t.artist && r.bpm == t.bpm && r.key == t.key
    ensures r.duration == 0.0
  {
    t.(duration := 0.0)
  }

  /** Index of the first library track whose title equals `title` exactly. */
  function LibraryRecord(library: seq<Track>, title: string): Option<nat>
  {
    FirstWhere(library, (t: Track) => t.title == title)
  }

  /** The playlist entry as the window keeps it (lines 60-68): tempo and key
      from the first library track of the same title, 0 and "" when there is
      none; the duration in seconds. */
  function Enriched(library: seq<Track>, e: PlaylistEntry): Track
  {
    var rec := LibraryRecord(library, e.title);
    var bpm := if rec.Some? then library[rec.value].bpm else 0.0;
    var key := if rec.Some? then library[rec.value].key else "";
    Track(e.title, e.artist, bpm, key, e.durationMs / 1000.0)
  }

  /** An entry keeps its title and artist; it takes its tempo and key from
      the first library track with exactly its title, or 0 and "" when no
      library track has that title. */
  lemma EnrichedFromFirstExactMatch(library: seq<Track>, e: PlaylistEntry)
    ensures var t := Enriched(library, e);
      && t.title == e.title && t.artist == e.artist && t.duration == e.durationMs / 1000.0
      && ((forall j :: 0 <= j < |library| ==> library[j].title != e.title) ==> t.bpm == 0.0 && t.key == "")
      && forall i :: 0 <= i < |library| && library[i].title == e.title &&
                     (forall j :: 0 <= j < i ==> library[j].title != e.title) ==>
           t.bpm == library[i].bpm && t.key == library[i].key
  {
    var rec := LibraryRecord(library, e.title);
    if rec.Some? {
      forall i | 0 <= i < |library| && library[i].title == e.title &&
                 (forall j :: 0 <= j < i ==> library[j].title != e.title)
        ensures i == rec.value
      {
      }
    }
  }

  /** The whole fetched playlist, enriched entry by entry. */
  function EnrichAll(library: seq<Track>, raw: seq<PlaylistEntry>): (r: seq<Track>)
    ensures |r| == |raw|
    ensures forall k :: 0 <= k < |raw| ==> r[k] == Enriched(library, raw[k])
  {
    if raw == [] then []
    else EnrichAll(library, raw[..|raw| - 1]) + [Enriched(library, raw[|raw| - 1])]
  }

  /** The loop of lines 57-69. */
  method Enrich(library: seq<Track>, raw: seq<PlaylistEntry>) returns (items: seq<Track>)
    ensures items == EnrichAll(library, raw)
  {
    items := [];
    for n := 0 to |raw|
      invariant items == EnrichAll(library, raw[..n])
    {
      var e := raw[n];
      var rec := FirstWhere(library, (t: Track) => t.title == e.title);
      var bpm, key := 0.0, "";
      if rec.Some? {
        bpm, key := library[rec.value].bpm, library[rec.value].key;
      }
      items := items + [Track(e.title, e.artist, bpm, key, e.durationMs / 1000.0)];
      assert raw[..n + 1][..n] == raw[..n];
      assert EnrichAll(library, raw[..n + 1]) == EnrichAll(library, raw[..n]) + [Enriched(library, e)];
    }
    assert raw[..|raw|] == raw;
  }

  // ---------------------------------------------------------------------
  // Transition notes (lines 155-176)

  /** The notes key for cursor `curr`: the titles of the current track and
      of the one after it, or of the current one twice at the end. */
  function NotesKey(items: seq<Track>, curr: int): (k: (string, string))
    requires 0 <= curr < |items|
    ensures k.0 == items[curr].title
    ensures k.1 == items[Carousel.FocusNext(curr, |items|)].title
  {
    (items[curr].title, items[Min(curr + 1, |items| - 1)].title)
  }

  /** `store.get(key, "")`. */
  function Lookup(store: map<(string, string), string>, key: (string, string)): string
  {
    if key in store then store[key] else ""
  }

  /** Saving text under a key and then loading that key gives the text back;
      every other key loads what it loaded before. */
  lemma SaveThenLoad(store: map<(string, string), string>, key: (string, string), text: string)
    ensures Lookup(store[key := text], key) == text
    ensures forall k :: k != key ==> Lookup(store[key := text], k) == Lookup(store, k)
  {
  }

  /** Loading writes the loaded text straight back (the text box's
      textChanged signal saves it); what every key loads is unchanged. */
  lemma LoadKeepsNotes(store: map<(string, string), string>, key: (string, string))
    ensures forall k :: Lookup(store[key := Lookup(store, key)], k) == Lookup(store, k)
  {
  }

  // ---------------------------------------------------------------------
  // Song requests (lines 226-297)

  /** The request text as it is matched: stripped and lower-cased. */
  function Query(text: string): string
  {
    Text.Lower(Text.Strip(text))
  }

  /** The request is ignored exactly when the text is blank: all whitespace,
      or nothing. */
  lemma EmptyQueryIffBlank(text: string)
    ensures Query(text) == [] <==> forall i :: 0 <= i < |text| ==> Text.IsSpace(text[i])
  {
    var t := Text.TrimStart(text);
    Text.TrimStartSpec(text);
    Text.TrimEndSpec(t);
    if t != [] {
      assert Text.TrimEnd(t) != [];
    }
  }

  /** Index of the first library track whose lower-cased title contains the
      query. */
  function RequestMatch(library: seq<Track>, query: string): (r: Option<nat>)
    ensures r.Some? ==> r.value < |library| && Text.Contains(Text.Lower(library[r.value].title), query)
    ensures r.Some? ==> forall j :: 0 <= j < r.value ==> !Text.Contains(Text.Lower(library[j].title), query)
    ensures r.None? <==> forall j :: 0 <= j < |library| ==> !Text.Contains(Text.Lower(library[j].title), query)
  {
    FirstWhere(library, (t: Track) => Text.Contains(Text.Lower(t.title), query))
  }

  /** The buttons of the "Choose insertion spot" dialog. */
  datatype Choice = InsertNearby | InsertBest | Cancel

  /** How a request ends. */
  datatype Outcome =
    | EmptyQuery
    | NotFound
    | Cancelled
    | Declined
    | Inserted(track: Track, spot: Insertion.Spot)

  class MainWindow {
    var libraryItems: seq<Track>
    var orderedItems: seq<Track>
    var currentIndex: int
    var notesStore: map<(string, string), string>
    var notesText: string
    var carousel: Carousel.CoverCarousel

    /** The carousel shows the play order (the same list object in the
        window), the order is not empty, and both cursors point into it. */
    ghost predicate Valid()
      reads this, carousel
    {
      && carousel.items == orderedItems
      && orderedItems != []
      && 0 <= carousel.currentIndex < |orderedItems|
      && 0 <= currentIndex < |orderedItems|
    }

    /** Lines 27-80 and 101-112: the library, the enriched playlist in greedy
        order, the carousel over it, the cursor on the first track and no
        notes. */
    constructor(db: seq<Track>, fetched: seq<PlaylistEntry>)
      requires fetched != []
      ensures Valid() && fresh(carousel)
      ensures |libraryItems| == |db|
      ensures forall i :: 0 <= i < |db| ==> libraryItems[i] == AsLibraryItem(db[i])
      ensures orderedItems == Sequencer.GreedyOrder(EnrichAll(libraryItems, fetched))
      ensures multiset(orderedItems) == multiset(EnrichAll(libraryItems, fetched))
      ensures currentIndex == 0 && carousel.currentIndex == 0
      ensures notesStore == map[] && notesText == ""
    {
      var library := seq(|db|, i requires 0 <= i < |db| => AsLibraryItem(db[i]));
      var playlist := Enrich(library, fetched);
      var order := Sequencer.HybridOrder(playlist);
      Sequencer.GreedyOrderIsPermutation(playlist);
      libraryItems := library;
      orderedItems := order;
      carousel := new Carousel.CoverCarousel(order);
      currentIndex := 0;
      notesStore := map[];
      notesText := "";
    }

    /** Lines 155-158: the carousel reports a new current index. */
    method OnIndexChanged(idx: int)
      requires Valid() && 0 <= idx < |orderedItems|
      modifies this`currentIndex, this`notesText, this`notesStore
      ensures Valid() && currentIndex == idx
      ensures notesText == Lookup(old(notesStore), NotesKey(orderedItems, idx))
      ensures notesStore == old(notesStore)[NotesKey(orderedItems, idx) := notesText]
    {
      currentIndex := idx;
      UpdateTransitionNotes();
    }

    /** Lines 160-166: the text box's contents go under the current key. */
    method SaveCurrentNotes()
      requires Valid()
      modifies this`notesStore
      ensures Valid()
      ensures notesStore == old(notesStore)[NotesKey(orderedItems, currentIndex) := notesText]
    {
      var key := NotesKey(orderedItems, currentIndex);
      notesStore := notesStore[key := notesText];
    }

    /** The user edits the notes box (line 111): every change of its text
        saves it under the current key. */
    method EditNotes(text: string)
      requires Valid()
      modifies this`notesText, this`notesStore
      ensures Valid() && notesText == text
      ensures notesStore == old(notesStore)[NotesKey(orderedItems, currentIndex) := text]
    {
      notesText := text;
      SaveCurrentNotes();
    }

    /** Lines 168-176: the text box shows the notes of the current key, ""
        if there are none. Setting the text fires textChanged, which saves
        it back under the same key. */
    method UpdateTransitionNotes()
      requires Valid()
      modifies this`notesText, this`notesStore
      ensures Valid()
      ensures notesText == Lookup(old(notesStore), NotesKey(orderedItems, currentIndex))
      ensures notesStore == old(notesStore)[NotesKey(orderedItems, currentIndex) := notesText]
    {
      var key := NotesKey(orderedItems, currentIndex);
      notesText := if key in notesStore then notesStore[key] else "";
      SaveCurrentNotes();
    }

    /** Lines 226-297 with the dialog answers as inputs: match the request
        against the library, propose the best spot and the best one nearby,
        and insert the match where the user chose once confirmed. */
    method HandleRequest(text: string, choice: Choice, confirmed: bool) returns (outcome: Outcome)
      requires Valid()
      modifies this`orderedItems, carousel
      ensures Valid()
      ensures outcome == EmptyQuery <==> Query(text) == []
      ensures outcome == NotFound <==> Query(text) != [] && RequestMatch(libraryItems, Query(text)).None?
      ensures outcome.Inserted? <==>
        Query(text) != [] && RequestMatch(libraryItems, Query(text)).Some? && choice != Cancel && confirmed
      ensures !outcome.Inserted? ==>
        orderedItems == old(orderedItems) && carousel.currentIndex == old(carousel.currentIndex)
      ensures outcome.Inserted? ==>
        var s, c, p := old(orderedItems), old(carousel.currentIndex), outcome.spot.position;
        && outcome.track == libraryItems[RequestMatch(libraryItems, Query(text)).value]
        && c < p <= |s|
        && outcome.spot == Insertion.Report(s, c, p)
        && orderedItems == InsertAt(s, p, outcome.track)
        && (choice == InsertBest ==> Insertion.IsFirstMinimum(s, outcome.track, c + 1, |s|, p))
        && (choice == InsertNearby ==> Insertion.IsFirstMinimum(s, outcome.track, c + 1, Insertion.WindowEnd(s, c), p))
        && carousel.currentIndex == c
        && orderedItems[c] == s[c]
    {
      var query := Query(text);
      if query == [] {
        return EmptyQuery;
      }
      var found := RequestMatch(libraryItems, query);
      if found.None? {
        return NotFound;
      }
      var request := libraryItems[found.value];
      var curr := carousel.currentIndex;
      var proposal := Insertion.Propose(orderedItems, curr, request);
      var spot;
      if choice == InsertNearby {
        spot := proposal.nearby;
      } else if choice == InsertBest {
        spot := proposal.best;
      } else {
        return Cancelled;
      }
      if !confirmed {
        return Declined;
      }
      InsertRequest(request, spot.position);
      outcome := Inserted(request, spot);
    }

    /** Lines 297-298: the request goes in at position p, after the current
        track, and the carousel is handed the longer order; its cursor stays
        on the same track. */
    method InsertRequest(request: Track, p: int)
      requires Valid() && carousel.currentIndex < p <= |orderedItems|
      modifies this`orderedItems, carousel
      ensures Valid()
      ensures orderedItems == InsertAt(old(orderedItems), p, request)
      ensures carousel.currentIndex == old(carousel.currentIndex)
      ensures orderedItems[carousel.currentIndex] == old(orderedItems)[carousel.currentIndex]
    {
      orderedItems := InsertAt(orderedItems, p, request);
      carousel.SetItems(orderedItems);
    }
  }
}
