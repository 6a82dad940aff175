/** What single items and actions mean for a book, field by field, and which of them outlast what comes later. */
module DeviceRules {
  import opened Basics
  import R = Reading
  import opened KoboDevice
  import opened DeviceView
  import opened SpanLocation
  import H = KepubHighlight
  import Text

  // ------------------------------------------------------------- books listed

  /** The book shows what the metadata says; a book nobody is credited for is by "Unknown". */
  predicate ShowsMetadata(b: Book, m: BookMetadata) {
    && b.title == m.title && b.description == m.description && b.series == m.series && b.coverImageId == m.coverImageId
    && if m.contributors == [] then b.authors == ["Unknown"] else b.authors == m.contributors
  }

  /** Nothing of the book is on the device but its listing. */
  predicate IsBare(b: Book) {
    !b.downloaded && b.downloadProblem.None? && b.cover.None? && b.annotations == [] && b.droppedAnnotations == 0
  }

  /** An entitlement puts the book back on show under its metadata; one not held before comes bare. */
  lemma EntitlementLists(d: DeviceState, e: Entitlement)
    ensures var after := ApplyItem(d, NewEntitlement(e));
            && after.library.Keys == d.library.Keys + {e.id}
            && ShowsMetadata(after.library[e.id], e.metadata) && !after.library[e.id].archived
            && (e.id !in d.library ==> IsBare(after.library[e.id]))
            && (e.metadata.downloadUrls == [] ==> e.id !in after.downloadUrls)
            && (e.metadata.downloadUrls != [] ==> e.id in after.downloadUrls && after.downloadUrls[e.id] == e.metadata.downloadUrls[0])
            && forall id :: id in d.library && id != e.id ==> after.library[id] == d.library[id]
  {}

  /** A removal archives a held book and nothing else; new metadata shows on a held book and leaves it archived or not. */
  lemma ChangesList(d: DeviceState, e: Entitlement, m: BookMetadata)
    ensures var after := ApplyItem(d, ChangedEntitlement(e));
            && after.library.Keys == d.library.Keys && after.downloadUrls == d.downloadUrls
            && forall id :: id in d.library ==>
                 after.library[id] == if id == e.id && e.isRemoved then d.library[id].(archived := true) else d.library[id]
    ensures var after, id := ApplyItem(d, ChangedProductMetadata(m)), m.entitlementId;
            && after.library.Keys == d.library.Keys
            && (id in d.library ==>
                  ShowsMetadata(after.library[id], m) && after.library[id].archived == d.library[id].archived
                  && after.library[id].reading == d.library[id].reading)
            && (m.downloadUrls == [] ==> id !in after.downloadUrls)
            && (m.downloadUrls != [] ==> id in after.downloadUrls && after.downloadUrls[id] == m.downloadUrls[0])
  {}

  // ------------------------------------------------------------ reading marks

  /** No status, and no bookmark, is stamped later than `now`. */
  predicate NotAfter(states: seq<R.ServerState>, now: int) {
    forall i :: 0 <= i < |states| ==>
      && (states[i].statusStamp.Some? ==> states[i].statusStamp.value <= now)
      && (states[i].bookmarkStamp.Some? ==> states[i].bookmarkStamp.value <= now)
  }

  predicate SomeStatusAfter(states: seq<R.ServerState>, now: int) {
    exists i :: 0 <= i < |states| && states[i].statusStamp.Some? && states[i].statusStamp.value > now
  }

  lemma OldOffers(r: R.Reading, states: seq<R.ServerState>, now: int)
    requires NotAfter(states, now)
    ensures r.statusModified == Some(now) ==> R.AdoptAll(R.StatusOf(r), R.StatusOffers(states)) == R.StatusOf(r)
    ensures R.BookmarkStamp(r) == Some(now) ==> R.AdoptAll(R.BookmarkOf(r), R.BookmarkOffers(states)) == R.BookmarkOf(r)
  {
    R.UntouchedIff(R.StatusOf(r), R.StatusOffers(states));
    R.UntouchedIff(R.BookmarkOf(r), R.BookmarkOffers(states));
  }

  lemma LaterStatusWins(r: R.Reading, states: seq<R.ServerState>, now: int)
    requires r.statusModified == Some(now)
    ensures R.ApplyAll(r, states).statusModified == Some(now) <==> !SomeStatusAfter(states, now)
  {
    R.TwoRegisters(r, states);
    var winner := R.FirstOfLatest(R.StatusOf(r), R.StatusOffers(states));
    if winner.Some? {
      var k := winner.value;
      assert R.StatusOffers(states)[k] == R.StatusOffer(states[k]);
    }
  }

  lemma HeldReading(d: DeviceState, items: seq<SyncItem>, id: string)
    requires id in d.library
    ensures id in ApplyItems(d, items).library
    ensures ApplyItems(d, items).library[id].reading == R.ApplyAll(d.library[id].reading, Arrived(items, id, true))
  {
    ViewOfItems(d, items);
    ReadingOfItems(View(d), items, id);
    var after := ApplyItems(d, items);
    assert Lookup(View(d).readings, id) == Some(d.library[id].reading);
    assert Lookup(View(after).readings, id).Some?;
  }

  /**
   * What was read on the device stands through any sync whose states for the book are stamped no later: in progress,
   * at that percent and place, all stamped then. A status stamped later replaces it.
   */
  lemma ReadingStands(d: DeviceState, id: string, percent: nat, location: Option<R.KoboSpan>, now: int, items: seq<SyncItem>)
    requires id in d.library && d.library[id].downloaded
    ensures var (read, error) := Done(d, Reading(id, percent, location, now));
            var after := ApplyItems(read, items);
            && error.None? && id in after.library
            && (NotAfter(Arrived(items, id, true), now) ==>
                  after.library[id].reading
                  == R.Reading(R.InProgress, Some(now), Some(R.Bookmark(Some(percent), location, now))))
            && (after.library[id].reading.statusModified == Some(now) <==> !SomeStatusAfter(Arrived(items, id, true), now))
  {
    var read := Done(d, Reading(id, percent, location, now)).0;
    var r, states := read.library[id].reading, Arrived(items, id, true);
    assert r == R.Reading(R.InProgress, Some(now), Some(R.Bookmark(Some(percent), location, now)));
    HeldReading(read, items, id);
    R.TwoRegisters(r, states);
    LaterStatusWins(r, states, now);
    if NotAfter(states, now) {
      OldOffers(r, states, now);
      R.SameReading(R.ApplyAll(r, states), r);
    }
  }

  /** A book finished on the device stays so likewise, and its bookmark is what it would have been anyway. */
  lemma FinishStands(d: DeviceState, id: string, now: int, items: seq<SyncItem>)
    requires id in d.library
    ensures var (finished, error) := Done(d, Finishing(id, now));
            var after := ApplyItems(finished, items);
            && error.None? && id in after.library && id in ApplyItems(d, items).library
            && (NotAfter(Arrived(items, id, true), now) ==>
                  after.library[id].reading.status == R.Finished && after.library[id].reading.statusModified == Some(now))
            && (after.library[id].reading.statusModified == Some(now) <==> !SomeStatusAfter(Arrived(items, id, true), now))
            && after.library[id].reading.bookmark == ApplyItems(d, items).library[id].reading.bookmark
  {
    var finished := Done(d, Finishing(id, now)).0;
    var r, was, states := finished.library[id].reading, d.library[id].reading, Arrived(items, id, true);
    assert r == was.(status := R.Finished, statusModified := Some(now));
    HeldReading(finished, items, id);
    HeldReading(d, items, id);
    R.TwoRegisters(r, states);
    R.TwoRegisters(was, states);
    LaterStatusWins(r, states, now);
    if NotAfter(states, now) { OldOffers(r, states, now); }
  }

  // -------------------------------------------------------------- annotations

  lemma {:induction false} BlankSplits(s: string)
    requires forall i :: 0 <= i < |s| ==> Text.IsSpace(s[i])
    ensures Text.Split(s) == []
  {
    if s != [] { BlankSplits(s[..|s| - 1]); }
  }

  lemma {:induction false} TextSplits(s: string, i: nat)
    requires i < |s| && !Text.IsSpace(s[i])
    ensures Text.Split(s) != []
  {
    if i < |s| - 1 { TextSplits(s[..|s| - 1], i); }
  }

  /** The note says something. */
  predicate Says(note: string) {
    exists i :: 0 <= i < |note| && !Text.IsSpace(note[i])
  }

  /**
   * A highlight made in a downloaded book is its last annotation: under its id, with its own text and colour, a note only
   * if the note says something, and a location that decodes to the range it was made over.
   */
  lemma HighlightHeld(d: DeviceState, book: string, id: string, made: H.NewHighlight<Swatch>)
    requires book in d.library && d.library[book].downloaded
    ensures var (after, error) := Done(d, Highlighting(book, id, made));
            && error.None? && book in after.library
            && |after.library[book].annotations| == |d.library[book].annotations| + 1
            && d.library[book].annotations <= after.library[book].annotations
            && var a := after.library[book].annotations[|d.library[book].annotations|];
               && a.id == id && a.text == made.text && a.color == made.color
               && SpanRangeOf(a.location) == made.location
               && a.note == (if made.note.Some? && Says(made.note.value) then made.note else None)
  {
    LocationRoundTrip(made.location);
    if made.note.Some? {
      if Says(made.note.value) {
        var i :| 0 <= i < |made.note.value| && !Text.IsSpace(made.note.value[i]);
        TextSplits(made.note.value, i);
      } else {
        BlankSplits(made.note.value);
      }
    }
  }

  /** Keeping apart what has the id and what has not, in order. */
  lemma {:induction false} WithoutConcat(x: seq<Annotation>, y: seq<Annotation>, id: string)
    ensures Without(x + y, id) == Without(x, id) + Without(y, id)
    decreases |y|
  {
    if y == [] {
      assert x + y == x;
    } else {
      var init := y[..|y| - 1];
      WithoutConcat(x, init, id);
      assert (x + y)[..|x + y| - 1] == x + init;
    }
  }

  /** An annotation by itself. */
  lemma WithoutOne(a: Annotation, id: string)
    ensures Without([a], id) == if a.id == id then [] else [a]
  {
    assert [a][..0] == [];
  }

  lemma WithoutMiddle(x: seq<Annotation>, a: Annotation, y: seq<Annotation>, id: string)
    requires a.id == id && (forall b :: b in x ==> b.id != id) && (forall b :: b in y ==> b.id != id)
    ensures Without(x + ([a] + y), id) == x + y
  {
    WithoutConcat(x, [a] + y, id);
    WithoutConcat([a], y, id);
    WithoutOne(a, id);
    WithoutNone(x, id);
    WithoutNone(y, id);
    assert [] + y == y;
  }

  /** The annotation deleted goes, all others stay in their order. */
  lemma DeletedGone(d: DeviceState, book: string, id: string, x: seq<Annotation>, a: Annotation, y: seq<Annotation>)
    requires book in d.library && d.library[book].annotations == x + ([a] + y)
    requires a.id == id && (forall b :: b in x ==> b.id != id) && (forall b :: b in y ==> b.id != id)
    ensures var (after, error) := Done(d, Deleting(book, id));
            error.None? && book in after.library && after.library[book].annotations == x + y
  {
    WithoutMiddle(x, a, y, id);
    assert |x + y| < |x + ([a] + y)|;
  }

  /**
   * What a server serves for a downloaded book is all it then holds; for one not downloaded it is only counted. Either
   * way the last served is what counts.
   */
  lemma LastServedCounts(d: DeviceState, book: string, first: seq<Annotation>, last: seq<Annotation>)
    requires book in d.library
    ensures var after := Done(Done(d, Receiving(book, first)).0, Receiving(book, last)).0;
            && after == Done(d, Receiving(book, last)).0 && book in after.library
            && var b, was := after.library[book], d.library[book];
               if was.downloaded then b.annotations == last && b.droppedAnnotations == 0
               else b.annotations == was.annotations && b.droppedAnnotations == |last|
  {
    var once := Done(d, Receiving(book, first)).0;
    var after := Done(once, Receiving(book, last)).0;
    assert after.library == d.library[book := after.library[book]];
  }

  // ----------------------------------------------------------------- removals

  /** Once its download is removed, a book cannot be read or highlighted, and keeps everything else but its problem. */
  lemma RemovedIsClosed(d: DeviceState, book: string, percent: nat, location: Option<R.KoboSpan>, now: int,
                        id: string, made: H.NewHighlight<Swatch>)
    requires book in d.library
    ensures var (after, error) := Done(d, Removing(book));
            && error.None? && book in after.library
            && after.library[book] == d.library[book].(downloaded := false, downloadProblem := None)
            && Done(after, Reading(book, percent, location, now)) == (after, Some(NotDownloaded(book)))
            && Done(after, Highlighting(book, id, made)) == (after, Some(NotDownloaded(book)))
  {
    var after := Done(d, Removing(book)).0;
    ActionStaysPut(after, Reading(book, percent, location, now));
    ActionStaysPut(after, Highlighting(book, id, made));
  }

  /** Nothing can be done to a book the device does not hold. */
  lemma UnknownIsRefused(d: DeviceState, a: LocalAction)
    requires a.book !in d.library
    ensures Done(d, a).0 == d && (a.Receiving? || Done(d, a).1 == Some(UnknownBook(a.book)))
  {}
}
