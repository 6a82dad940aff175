/** The device's own state and the rules a sync changes it by. */
module KoboDevice {
  import opened Basics
  import R = Reading
  import opened SpanLocation
  import H = KepubHighlight
  import Text

  datatype Series = Series(name: string, number: Option<real>, id: string)

  datatype Swatch = Yellow | Pink | Blue | Green

  datatype Annotation = Annotation(id: string, text: string, note: Option<string>, color: Swatch, location: Json)

  /** A decoded or undecodable cover. */
  datatype Cover = Decoded(width: nat, height: nat) | Undecodable

  datatype Book = Book(
    title: string, description: string, authors: seq<string>, series: Option<Series>,
    downloaded: bool, archived: bool, coverImageId: string, cover: Option<Cover>,
    downloadProblem: Option<string>, reading: R.Reading,
    annotations: seq<Annotation>, droppedAnnotations: nat)

  datatype BookMetadata = BookMetadata(
    entitlementId: string, title: string, description: string, contributors: seq<string>,
    series: Option<Series>, coverImageId: string, downloadUrls: seq<string>)

  datatype Entitlement = Entitlement(id: string, isRemoved: bool, metadata: BookMetadata, state: R.ServerState)

  datatype SyncItem =
    | NewEntitlement(entitlement: Entitlement)
    | ChangedEntitlement(entitlement: Entitlement)
    | ChangedProductMetadata(metadata: BookMetadata)
    | ChangedReadingState(state: R.ServerState)

  /** A device as a value: what is cloned for an exchange and written to the state file. */
  datatype DeviceState = DeviceState(
    hardwareId: string, library: map<string, Book>, syncToken: Option<string>, format: nat,
    covers: map<string, Cover>, downloadUrls: map<string, string>,
    readingServicesHost: Option<string>, storage: Option<string>)

  const DEVICE_FORMAT: nat := 1

  /** `Device::new`. */
  function NewDevice(hardwareId: string): DeviceState {
    DeviceState(hardwareId, map[], None, DEVICE_FORMAT, map[], map[], None, None)
  }

  // ----------------------------------------------------------- book metadata

  function ShownAuthors(contributors: seq<string>): seq<string> {
    if contributors == [] then ["Unknown"] else contributors
  }

  /** `Book::from_metadata`. */
  function FromMetadata(m: BookMetadata): Book {
    Book(m.title, m.description, ShownAuthors(m.contributors), m.series, false, false, m.coverImageId, None, None,
         R.FRESH, [], 0)
  }

  /** `Book::refresh`: new metadata over the same file. */
  function Refresh(b: Book, m: BookMetadata): Book {
    FromMetadata(m).(downloaded := b.downloaded, archived := b.archived, downloadProblem := b.downloadProblem,
      reading := b.reading, cover := b.cover, annotations := b.annotations, droppedAnnotations := b.droppedAnnotations)
  }

  /** `update_download_url`. */
  function UpdateUrl(urls: map<string, string>, id: string, m: BookMetadata): map<string, string> {
    if m.downloadUrls != [] then urls[id := m.downloadUrls[0]] else urls - {id}
  }

  // -------------------------------------------------------------- transitions

  /** `Device::apply`. */
  function ApplyItem(d: DeviceState, item: SyncItem): DeviceState {
    match item
    case NewEntitlement(e) =>
      var book :=
        if e.id in d.library then
          Refresh(d.library[e.id], e.metadata).(archived := false, reading := R.Apply(d.library[e.id].reading, e.state))
        else FromMetadata(e.metadata).(reading := R.Apply(R.FRESH, e.state));
      d.(downloadUrls := UpdateUrl(d.downloadUrls, e.id, e.metadata), library := d.library[e.id := book])
    case ChangedEntitlement(e) =>
      if e.isRemoved && e.id in d.library
      then d.(library := d.library[e.id := d.library[e.id].(archived := true)])
      else d
    case ChangedProductMetadata(m) =>
      var id := m.entitlementId;
      var d1 := d.(downloadUrls := UpdateUrl(d.downloadUrls, id, m));
      if id in d.library then d1.(library := d.library[id := Refresh(d.library[id], m)]) else d1
    case ChangedReadingState(s) =>
      var id := s.entitlementId;
      if id in d.library
      then d.(library := d.library[id := d.library[id].(reading := R.Apply(d.library[id].reading, s))])
      else d
  }

  function ApplyItems(d: DeviceState, items: seq<SyncItem>): DeviceState {
    if items == [] then d else ApplyItem(ApplyItems(d, items[..|items| - 1]), items[|items| - 1])
  }

  datatype DeviceError = UnknownBook(id: string) | NotDownloaded(id: string) | UnknownHighlight(id: string)

  /** What is done on the device itself, or to one book's annotations after a download. */
  datatype LocalAction =
    | Removing(book: string)
    | Reading(book: string, percent: nat, location: Option<R.KoboSpan>, now: int)
    | Finishing(book: string, now: int)
    | Highlighting(book: string, id: string, made: H.NewHighlight<Swatch>)
    | Deleting(book: string, id: string)
    | Receiving(book: string, served: seq<Annotation>)

  /** `filter(|n| !n.trim().is_empty())`. */
  function NonBlank(note: Option<string>): Option<string> {
    if note.Some? && Text.Split(note.value) != [] then note else None
  }

  /** `retain(|a| a.id != id)`. */
  function Without(annotations: seq<Annotation>, id: string): seq<Annotation> {
    if annotations == [] then []
    else
      var last := annotations[|annotations| - 1];
      Without(annotations[..|annotations| - 1], id) + if last.id != id then [last] else []
  }

  /** What reading on the device does to a book's progress: stamps it now, whatever it was. */
  datatype Mark = Opened(percent: nat, location: Option<R.KoboSpan>, now: int) | FinishedAt(now: int)

  function Marked(r: R.Reading, m: Mark): R.Reading {
    match m
    case Opened(percent, location, now) => R.Reading(R.InProgress, Some(now), Some(R.Bookmark(Some(percent), location, now)))
    case FinishedAt(now) => r.(status := R.Finished, statusModified := Some(now))
  }

  /** One local action on the book it is about. */
  function BookAfter(b: Book, a: LocalAction): (Book, Option<DeviceError>) {
    match a
    case Removing(_) => (b.(downloaded := false, downloadProblem := None), None)
    case Reading(_, percent, location, now) =>
      if !b.downloaded then (b, Some(NotDownloaded(a.book)))
      else (b.(reading := Marked(b.reading, Opened(percent, location, now))), None)
    case Finishing(_, now) => (b.(reading := Marked(b.reading, FinishedAt(now))), None)
    case Highlighting(_, id, made) =>
      if !b.downloaded then (b, Some(NotDownloaded(a.book)))
      else
        var added := Annotation(id, made.text, NonBlank(made.note), made.color, LocationJson(made.location));
        (b.(annotations := b.annotations + [added]), None)
    case Deleting(_, id) =>
      var kept := Without(b.annotations, id);
      if |kept| == |b.annotations| then (b, Some(UnknownHighlight(id))) else (b.(annotations := kept), None)
    case Receiving(_, served) =>
      (if b.downloaded then b.(annotations := served, droppedAnnotations := 0) else b.(droppedAnnotations := |served|), None)
  }

  function Done(d: DeviceState, a: LocalAction): (DeviceState, Option<DeviceError>) {
    if a.book !in d.library then (d, if a.Receiving? then None else Some(UnknownBook(a.book)))
    else
      var (book, error) := BookAfter(d.library[a.book], a);
      (d.(library := d.library[a.book := book]), error)
  }

  /** Whether a cached download URL lies outside `url`. */
  predicate HoldsForeignUrl(urls: map<string, string>, url: string) {
    exists id :: id in urls && !(url + "/" <= urls[id])
  }

  /** `Device::forget_server`. */
  function Forget(d: DeviceState, tokenChanged: bool, url: string): DeviceState {
    var d1 := d.(readingServicesHost := None);
    if tokenChanged || HoldsForeignUrl(d.downloadUrls, url)
    then d1.(syncToken := None, downloadUrls := map[])
    else d1
  }

  /** One fake Kobo. */
  class Device {
    var hardwareId: string
    var library: map<string, Book>
    var syncToken: Option<string>
    var format: nat
    var covers: map<string, Cover>
    var downloadUrls: map<string, string>
    var readingServicesHost: Option<string>
    var storage: Option<string>

    /** The device as a value. */
    function State(): DeviceState
      reads this
    {
      DeviceState(hardwareId, library, syncToken, format, covers, downloadUrls, readingServicesHost, storage)
    }

    /** `Device::new`. */
    constructor New(hardwareId: string)
      ensures State() == NewDevice(hardwareId)
      ensures library == map[] && syncToken == None && this.hardwareId == hardwareId
    {
      this.hardwareId, library, syncToken, format := hardwareId, map[], None, DEVICE_FORMAT;
      covers, downloadUrls, readingServicesHost, storage := map[], map[], None, None;
    }

    /** A clone, or one read from the state file. */
    constructor (d: DeviceState)
      ensures State() == d
    {
      hardwareId, library, syncToken, format := d.hardwareId, d.library, d.syncToken, d.format;
      covers, downloadUrls, readingServicesHost, storage := d.covers, d.downloadUrls, d.readingServicesHost, d.storage;
    }

    method UpdateDownloadUrl(id: string, m: BookMetadata)
      modifies this`downloadUrls
      ensures downloadUrls == UpdateUrl(old(downloadUrls), id, m)
    {
      if m.downloadUrls != [] {
        downloadUrls := downloadUrls[id := m.downloadUrls[0]];
      } else {
        downloadUrls := downloadUrls - {id};
      }
    }

    /** `Device::apply`. */
    method Apply(item: SyncItem)
      modifies this`library, this`downloadUrls
      ensures State() == ApplyItem(old(State()), item)
    {
      match item {
        case NewEntitlement(e) =>
          UpdateDownloadUrl(e.id, e.metadata);
          if e.id in library {
            var book := Refresh(library[e.id], e.metadata).(archived := false);
            book := book.(reading := R.Apply(book.reading, e.state));
            library := library[e.id := book];
          } else {
            var book := FromMetadata(e.metadata);
            book := book.(reading := R.Apply(book.reading, e.state));
            library := library[e.id := book];
          }
        case ChangedEntitlement(e) =>
          if e.isRemoved {
            if e.id in library {
              library := library[e.id := library[e.id].(archived := true)];
            }
          }
        case ChangedProductMetadata(m) =>
          UpdateDownloadUrl(m.entitlementId, m);
          if m.entitlementId in library {
            library := library[m.entitlementId := Refresh(library[m.entitlementId], m)];
          }
        case ChangedReadingState(s) =>
          if s.entitlementId in library {
            var book := library[s.entitlementId];
            library := library[s.entitlementId := book.(reading := R.Apply(book.reading, s))];
          }
      }
    }

    /** `Device::forget_server`. */
    method ForgetServer(tokenChanged: bool, url: string)
      modifies this`readingServicesHost, this`syncToken, this`downloadUrls
      ensures State() == Forget(old(State()), tokenChanged, url)
    {
      readingServicesHost := None;
      if tokenChanged || HoldsForeignUrl(downloadUrls, url) {
        syncToken := None;
        downloadUrls := map[];
      }
    }

    /** `Device::receive_annotations`. */
    method ReceiveAnnotations(id: string, served: seq<Annotation>)
      modifies this`library
      ensures State() == Done(old(State()), Receiving(id, served)).0
    {
      if id !in library {
        return;
      }
      if library[id].downloaded {
        library := library[id := library[id].(annotations := served, droppedAnnotations := 0)];
      } else {
        library := library[id := library[id].(droppedAnnotations := |served|)];
      }
    }

    /** `Device::remove_download`. */
    method RemoveDownload(book: string) returns (error: Option<DeviceError>)
      modifies this`library
      ensures (State(), error) == Done(old(State()), Removing(book))
    {
      if book !in library {
        return Some(UnknownBook(book));
      }
      library := library[book := library[book].(downloaded := false, downloadProblem := None)];
      error := None;
    }

    /** `Device::read`. */
    method Read(id: string, percent: nat, location: Option<R.KoboSpan>, now: int) returns (error: Option<DeviceError>)
      modifies this`library
      ensures State() == Done(old(State()), Reading(id, percent, location, now)).0
      ensures error == Done(old(State()), Reading(id, percent, location, now)).1
    {
      if id !in library {
        return Some(UnknownBook(id));
      }
      var book := library[id];
      if !book.downloaded {
        SameLibrary(library, id);
        return Some(NotDownloaded(id));
      }
      var reading := book.reading.(status := R.InProgress, statusModified := Some(now));
      reading := reading.(bookmark := Some(R.Bookmark(Some(percent), location, now)));
      library := library[id := book.(reading := reading)];
      error := None;
    }

    /** `Device::finish`. */
    method Finish(book: string, now: int) returns (error: Option<DeviceError>)
      modifies this`library
      ensures (State(), error) == Done(old(State()), Finishing(book, now))
    {
      if book !in library {
        return Some(UnknownBook(book));
      }
      var b := library[book];
      library := library[book := b.(reading := b.reading.(status := R.Finished, statusModified := Some(now)))];
      error := None;
    }

    /** `Device::highlight`. */
    method Highlight(bookId: string, id: string, made: H.NewHighlight<Swatch>) returns (error: Option<DeviceError>)
      modifies this`library
      ensures State() == Done(old(State()), Highlighting(bookId, id, made)).0
      ensures error == Done(old(State()), Highlighting(bookId, id, made)).1
    {
      if bookId !in library {
        return Some(UnknownBook(bookId));
      }
      var book := library[bookId];
      if !book.downloaded {
        SameLibrary(library, bookId);
        return Some(NotDownloaded(bookId));
      }
      var added := Annotation(id, made.text, NonBlank(made.note), made.color, LocationJson(made.location));
      library := library[bookId := book.(annotations := book.annotations + [added])];
      error := None;
    }

    /** `Device::delete_highlight`. */
    method DeleteHighlight(book: string, id: string) returns (error: Option<DeviceError>)
      modifies this`library
      ensures State() == Done(old(State()), Deleting(book, id)).0
      ensures error == Done(old(State()), Deleting(book, id)).1
    {
      if book !in library {
        return Some(UnknownBook(book));
      }
      var before := |library[book].annotations|;
      WithoutNone(library[book].annotations, id);
      var kept := Without(library[book].annotations, id);
      SameLibrary(library, book);
      library := library[book := library[book].(annotations := kept)];
      if |kept| == before {
        return Some(UnknownHighlight(id));
      }
      error := None;
    }
  }

  lemma SameLibrary(library: map<string, Book>, id: string)
    requires id in library
    ensures library[id := library[id]] == library
  {}

  /** Nothing goes exactly when no annotation has the id. */
  lemma {:induction false} WithoutNone(annotations: seq<Annotation>, id: string)
    ensures |Without(annotations, id)| <= |annotations|
    ensures |Without(annotations, id)| == |annotations| <==> forall a :: a in annotations ==> a.id != id
    ensures |Without(annotations, id)| == |annotations| ==> Without(annotations, id) == annotations
  {
    if annotations != [] {
      var init, last := annotations[..|annotations| - 1], annotations[|annotations| - 1];
      WithoutNone(init, id);
      assert annotations == init + [last];
      assert forall a :: a in annotations <==> a in init || a == last;
    }
  }

  // ------------------------------------------------------------ what is kept

  /** The parts of a held book no sync item may touch. */
  predicate SameLocal(a: Book, b: Book) {
    && a.downloaded == b.downloaded && a.downloadProblem == b.downloadProblem && a.cover == b.cover
    && a.annotations == b.annotations && a.droppedAnnotations == b.droppedAnnotations
  }

  /** Every held book is still held, with its own local parts, and its reading only moved forward. */
  predicate Keeps(before: DeviceState, after: DeviceState) {
    && before.hardwareId == after.hardwareId && before.covers == after.covers && before.storage == after.storage
    && forall id :: id in before.library ==>
         id in after.library && SameLocal(before.library[id], after.library[id])
         && NotOlder(before.library[id].reading, after.library[id].reading)
  }

  predicate StampNotOlder(a: Option<int>, b: Option<int>) {
    a.Some? ==> b.Some? && a.value <= b.value
  }

  predicate NotOlder(a: R.Reading, b: R.Reading) {
    StampNotOlder(a.statusModified, b.statusModified) && StampNotOlder(R.BookmarkStamp(a), R.BookmarkStamp(b))
  }

  lemma PutKeeps(d: DeviceState, id: string, book: Book, urls: map<string, string>)
    requires id in d.library ==>
               SameLocal(d.library[id], book) && NotOlder(d.library[id].reading, book.reading)
    ensures Keeps(d, d.(library := d.library[id := book], downloadUrls := urls))
  {}

  lemma ReadingKept(r: R.Reading, s: R.ServerState)
    ensures NotOlder(r, R.Apply(r, s))
  {}

  lemma ItemKeeps(d: DeviceState, item: SyncItem)
    ensures Keeps(d, ApplyItem(d, item)) && ApplyItem(d, item).syncToken == d.syncToken
  {
    var after := ApplyItem(d, item);
    match item
    case NewEntitlement(e) =>
      if e.id in d.library { ReadingKept(d.library[e.id].reading, e.state); }
      PutKeeps(d, e.id, after.library[e.id], after.downloadUrls);
    case ChangedEntitlement(e) =>
      if e.id in d.library { PutKeeps(d, e.id, after.library[e.id], d.downloadUrls); }
    case ChangedProductMetadata(m) =>
      if m.entitlementId in d.library { PutKeeps(d, m.entitlementId, after.library[m.entitlementId], after.downloadUrls); }
    case ChangedReadingState(s) =>
      if s.entitlementId in d.library {
        ReadingKept(d.library[s.entitlementId].reading, s);
        PutKeeps(d, s.entitlementId, after.library[s.entitlementId], d.downloadUrls);
      }
  }

  lemma KeepsOn(a: DeviceState, b: DeviceState, c: DeviceState)
    requires Keeps(a, b) && Keeps(b, c)
    ensures Keeps(a, c)
  {}

  /** No run of sync items removes a book or touches what is local to it. */
  lemma {:induction false} ItemsKeep(d: DeviceState, items: seq<SyncItem>)
    ensures Keeps(d, ApplyItems(d, items))
    ensures ApplyItems(d, items).syncToken == d.syncToken
  {
    if items != [] {
      var mid := ApplyItems(d, items[..|items| - 1]);
      ItemsKeep(d, items[..|items| - 1]);
      ItemKeeps(mid, items[|items| - 1]);
      KeepsOn(d, mid, ApplyItems(d, items));
    }
  }

  // ------------------------------------------------------------ local actions

  /** An action that fails changes nothing, and one that succeeds leaves every other book and the sync token alone. */
  lemma ActionStaysPut(d: DeviceState, a: LocalAction)
    ensures Done(d, a).1.Some? ==> Done(d, a).0 == d
    ensures Done(d, a).0.library.Keys == d.library.Keys
    ensures Done(d, a).0 == d.(library := Done(d, a).0.library)
    ensures forall id :: id in d.library && id != a.book ==> Done(d, a).0.library[id] == d.library[id]
  {
    if a.book in d.library {
      SameLibrary(d.library, a.book);
    }
  }

  lemma WithoutAdded(annotations: seq<Annotation>, added: Annotation, id: string)
    requires added.id == id && forall a :: a in annotations ==> a.id != id
    ensures Without(annotations + [added], id) == annotations
  {
    WithoutNone(annotations, id);
    assert (annotations + [added])[..|annotations|] == annotations;
  }

  /** A highlight made under a new id and then deleted leaves the device as it was. */
  lemma HighlightUndone(d: DeviceState, book: string, id: string, made: H.NewHighlight<Swatch>)
    requires book in d.library && d.library[book].downloaded
    requires forall a :: a in d.library[book].annotations ==> a.id != id
    ensures var (after, error) := Done(d, Highlighting(book, id, made));
            error == None && after != d && Done(after, Deleting(book, id)) == (d, None)
  {
    var b := d.library[book];
    var b1 := BookAfter(b, Highlighting(book, id, made)).0;
    WithoutAdded(b.annotations, b1.annotations[|b1.annotations| - 1], id);
    assert b1.(annotations := b.annotations) == b;
    assert BookAfter(b1, Deleting(book, id)) == (b, None);
    var after := Done(d, Highlighting(book, id, made)).0;
    assert after.library[book] == b1 && after.library[book := b] == d.library;
  }
}
