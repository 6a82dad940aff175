/** The part of a device a server's items decide: listings, download URLs and reading states. */
module DeviceView {
  import opened Basics
  import R = Reading
  import opened KoboDevice

  /** A book as listed, its reading state apart. */
  datatype Listing = Listing(title: string, description: string, authors: seq<string>, series: Option<Series>,
                             coverImageId: string, archived: bool)

  /** Everything `Device::apply` folds; readings are the device's own to write too. */
  datatype ServerView = ServerView(books: map<string, Listing>, urls: map<string, string>, readings: map<string, R.Reading>)

  const NOTHING: ServerView := ServerView(map[], map[], map[])

  function ListingOf(b: Book): Listing {
    Listing(b.title, b.description, b.authors, b.series, b.coverImageId, b.archived)
  }

  function View(d: DeviceState): ServerView {
    ServerView(map id | id in d.library :: ListingOf(d.library[id]), d.downloadUrls,
               map id | id in d.library :: d.library[id].reading)
  }

  function ListingFrom(m: BookMetadata, archived: bool): Listing {
    Listing(m.title, m.description, ShownAuthors(m.contributors), m.series, m.coverImageId, archived)
  }

  // ------------------------------------------------------------- one item

  function ListItem(books: map<string, Listing>, item: SyncItem): map<string, Listing> {
    match item
    case NewEntitlement(e) => books[e.id := ListingFrom(e.metadata, false)]
    case ChangedEntitlement(e) =>
      if e.isRemoved && e.id in books then books[e.id := books[e.id].(archived := true)] else books
    case ChangedProductMetadata(m) =>
      var id := m.entitlementId;
      if id in books then books[id := ListingFrom(m, books[id].archived)] else books
    case ChangedReadingState(_) => books
  }

  function UrlItem(urls: map<string, string>, item: SyncItem): map<string, string> {
    match item
    case NewEntitlement(e) => UpdateUrl(urls, e.id, e.metadata)
    case ChangedProductMetadata(m) => UpdateUrl(urls, m.entitlementId, m)
    case _ => urls
  }

  function ReadItem(readings: map<string, R.Reading>, item: SyncItem): map<string, R.Reading> {
    match item
    case NewEntitlement(e) =>
      readings[e.id := R.Apply(if e.id in readings then readings[e.id] else R.FRESH, e.state)]
    case ChangedReadingState(s) =>
      var id := s.entitlementId;
      if id in readings then readings[id := R.Apply(readings[id], s)] else readings
    case _ => readings
  }

  function ViewItem(v: ServerView, item: SyncItem): ServerView {
    ServerView(ListItem(v.books, item), UrlItem(v.urls, item), ReadItem(v.readings, item))
  }

  function ViewItems(v: ServerView, items: seq<SyncItem>): ServerView {
    if items == [] then v else ViewItem(ViewItems(v, items[..|items| - 1]), items[|items| - 1])
  }

  lemma ViewPut(d: DeviceState, id: string, book: Book, urls: map<string, string>)
    ensures View(d.(library := d.library[id := book], downloadUrls := urls))
            == ServerView(View(d).books[id := ListingOf(book)], urls, View(d).readings[id := book.reading])
  {}

  lemma SameEntry<T>(m: map<string, T>, id: string)
    requires id in m
    ensures m[id := m[id]] == m
  {}

  lemma ViewOfItem(d: DeviceState, item: SyncItem)
    ensures View(ApplyItem(d, item)) == ViewItem(View(d), item)
  {
    var after, v := ApplyItem(d, item), View(d);
    match item
    case NewEntitlement(e) =>
      ViewPut(d, e.id, after.library[e.id], after.downloadUrls);
    case ChangedEntitlement(e) =>
      if e.id in d.library {
        ViewPut(d, e.id, after.library[e.id], d.downloadUrls);
        SameEntry(v.readings, e.id);
        SameEntry(v.books, e.id);
      }
    case ChangedProductMetadata(m) =>
      if m.entitlementId in d.library {
        ViewPut(d, m.entitlementId, after.library[m.entitlementId], after.downloadUrls);
        SameEntry(v.readings, m.entitlementId);
      }
    case ChangedReadingState(s) =>
      if s.entitlementId in d.library {
        ViewPut(d, s.entitlementId, after.library[s.entitlementId], d.downloadUrls);
        SameEntry(v.books, s.entitlementId);
      }
  }

  /** What the server decides evolves on its own: downloads, covers and annotations do not feed into it. */
  lemma {:induction false} ViewOfItems(d: DeviceState, items: seq<SyncItem>)
    ensures View(ApplyItems(d, items)) == ViewItems(View(d), items)
  {
    if items != [] {
      ViewOfItems(d, items[..|items| - 1]);
      ViewOfItem(ApplyItems(d, items[..|items| - 1]), items[|items| - 1]);
    }
  }

  lemma {:induction false} ViewItemsConcat(v: ServerView, a: seq<SyncItem>, b: seq<SyncItem>)
    ensures ViewItems(v, a + b) == ViewItems(ViewItems(v, a), b)
    decreases |b|
  {
    if b == [] {
      assert a + b == a;
    } else {
      ViewItemsConcat(v, a, b[..|b| - 1]);
      assert (a + b)[..|a + b| - 1] == a + b[..|b| - 1];
    }
  }

  // -------------------------------------------------------- local actions

  /** The mark an action makes on its book's reading, if it makes one. */
  function MarkOf(d: DeviceState, a: LocalAction): Option<Mark> {
    if a.book !in d.library then None
    else
      match a
      case Reading(_, percent, location, now) =>
        if d.library[a.book].downloaded then Some(Opened(percent, location, now)) else None
      case Finishing(_, now) => Some(FinishedAt(now))
      case _ => None
  }

  function ViewMark(v: ServerView, book: string, m: Mark): ServerView {
    if book in v.readings then v.(readings := v.readings[book := Marked(v.readings[book], m)]) else v
  }

  /** Of the server's part, what is done on the device changes at most its own book's reading, and never the sync token. */
  lemma ActionInView(d: DeviceState, a: LocalAction)
    ensures View(Done(d, a).0) == match MarkOf(d, a) case Some(m) => ViewMark(View(d), a.book, m) case None => View(d)
    ensures Done(d, a).0.syncToken == d.syncToken
    ensures MarkOf(d, a).Some? ==> a.book in View(d).readings
  {
    if a.book in d.library {
      ViewPut(d, a.book, Done(d, a).0.library[a.book], d.downloadUrls);
      SameEntry(View(d).books, a.book);
      SameEntry(View(d).readings, a.book);
    }
  }

  // ---------------------------------------------------- listings and URLs

  /** What a run of items does to one book's listing: set it outright, or edit it where held. */
  datatype Effect = Fixed(listing: Listing) | Edit(fields: Option<Listing>, archive: bool)

  /** `l` with the bibliographic fields of `fields`. */
  function WithFields(l: Listing, fields: Option<Listing>): Listing {
    match fields case None => l case Some(f) => f.(archived := l.archived)
  }

  function Act(e: Effect, l: Option<Listing>): Option<Listing> {
    match e
    case Fixed(listing) => Some(listing)
    case Edit(fields, archive) =>
      if l.None? then None
      else Some(WithFields(l.value, fields).(archived := archive || l.value.archived))
  }

  function Archive(e: Effect): Effect {
    match e
    case Fixed(l) => Fixed(l.(archived := true))
    case Edit(fields, _) => Edit(fields, true)
  }

  function Relist(e: Effect, m: BookMetadata): Effect {
    match e
    case Fixed(l) => Fixed(ListingFrom(m, l.archived))
    case Edit(_, archive) => Edit(Some(ListingFrom(m, false)), archive)
  }

  function EffectOf(items: seq<SyncItem>, id: string): Effect {
    if items == [] then Edit(None, false)
    else
      var e := EffectOf(items[..|items| - 1], id);
      match items[|items| - 1]
      case NewEntitlement(n) => if n.id == id then Fixed(ListingFrom(n.metadata, false)) else e
      case ChangedEntitlement(c) => if c.id == id && c.isRemoved then Archive(e) else e
      case ChangedProductMetadata(m) => if m.entitlementId == id then Relist(e, m) else e
      case ChangedReadingState(_) => e
  }

  /** What a run of items does to one book's download URL; `None` leaves it. */
  function UrlOf(items: seq<SyncItem>, id: string): Option<seq<string>> {
    if items == [] then None
    else
      match items[|items| - 1]
      case NewEntitlement(n) => if n.id == id then Some(n.metadata.downloadUrls) else UrlOf(items[..|items| - 1], id)
      case ChangedProductMetadata(m) =>
        if m.entitlementId == id then Some(m.downloadUrls) else UrlOf(items[..|items| - 1], id)
      case _ => UrlOf(items[..|items| - 1], id)
  }

  function Lookup<T>(m: map<string, T>, id: string): Option<T> {
    if id in m then Some(m[id]) else None
  }

  function UrlAct(urls: Option<seq<string>>, url: Option<string>): Option<string> {
    match urls
    case None => url
    case Some(us) => if us == [] then None else Some(us[0])
  }

  lemma {:induction false} EffectActs(v: ServerView, items: seq<SyncItem>, id: string)
    ensures Lookup(ViewItems(v, items).books, id) == Act(EffectOf(items, id), Lookup(v.books, id))
  {
    if items != [] {
      EffectActs(v, items[..|items| - 1], id);
    }
  }

  lemma {:induction false} UrlActs(v: ServerView, items: seq<SyncItem>, id: string)
    ensures Lookup(ViewItems(v, items).urls, id) == UrlAct(UrlOf(items, id), Lookup(v.urls, id))
  {
    if items != [] {
      UrlActs(v, items[..|items| - 1], id);
    }
  }

  lemma SameLookup<T>(a: map<string, T>, b: map<string, T>)
    requires forall id :: Lookup(a, id) == Lookup(b, id)
    ensures a == b
  {
    forall id ensures id in a <==> id in b {
      assert Lookup(a, id) == Lookup(b, id);
    }
    forall id | id in a ensures a[id] == b[id] {
      assert Lookup(a, id) == Lookup(b, id);
    }
  }

  /** Listings and URLs delivered twice in a row are as delivered once. */
  lemma ListingsRedelivered(v: ServerView, items: seq<SyncItem>)
    ensures var once, twice := ViewItems(v, items), ViewItems(ViewItems(v, items), items);
            twice.books == once.books && twice.urls == once.urls
  {
    var once := ViewItems(v, items);
    var twice := ViewItems(once, items);
    forall id ensures Lookup(twice.books, id) == Lookup(once.books, id) {
      EffectActs(v, items, id);
      EffectActs(once, items, id);
    }
    forall id ensures Lookup(twice.urls, id) == Lookup(once.urls, id) {
      UrlActs(v, items, id);
      UrlActs(once, items, id);
    }
    SameLookup(twice.books, once.books);
    SameLookup(twice.urls, once.urls);
  }

  // ------------------------------------------------------------- readings

  /** The reading state an item offers a book. */
  function StateFor(item: SyncItem, id: string): seq<R.ServerState> {
    match item
    case NewEntitlement(e) => if e.id == id then [e.state] else []
    case ChangedReadingState(s) => if s.entitlementId == id then [s] else []
    case _ => []
  }

  predicate Entitles(item: SyncItem, id: string) {
    item.NewEntitlement? && item.entitlement.id == id
  }

  predicate Entitled(items: seq<SyncItem>, id: string) {
    items != [] && (Entitled(items[..|items| - 1], id) || Entitles(items[|items| - 1], id))
  }

  /** The states that reach a book's reading: all of them if it is held, else those from its entitlement on. */
  function Arrived(items: seq<SyncItem>, id: string, held: bool): seq<R.ServerState> {
    if items == [] then []
    else
      Arrived(items[..|items| - 1], id, held)
      + if held || Entitled(items, id) then StateFor(items[|items| - 1], id) else []
  }

  /** The states offered before the book's entitlement, which a device that does not hold the book passes over. */
  function TooEarly(items: seq<SyncItem>, id: string): seq<R.ServerState> {
    if items == [] then []
    else TooEarly(items[..|items| - 1], id) + if Entitled(items, id) then [] else StateFor(items[|items| - 1], id)
  }

  lemma ApplySnoc(r: R.Reading, states: seq<R.ServerState>, s: R.ServerState)
    ensures R.ApplyAll(r, states + [s]) == R.Apply(R.ApplyAll(r, states), s)
  {
    assert (states + [s])[..|states|] == states;
  }

  /** A book's reading after a run of items is its own registers given the states that reach it. */
  function ReadingAfter(r: Option<R.Reading>, items: seq<SyncItem>, id: string): Option<R.Reading> {
    if r.Some? then Some(R.ApplyAll(r.value, Arrived(items, id, true)))
    else if Entitled(items, id) then Some(R.ApplyAll(R.FRESH, Arrived(items, id, false)))
    else None
  }

  lemma {:induction false} NoneArrived(items: seq<SyncItem>, id: string)
    requires !Entitled(items, id)
    ensures Arrived(items, id, false) == []
  {
    if items != [] {
      NoneArrived(items[..|items| - 1], id);
    }
  }

  /** One more item, on one book's reading. */
  function ReadingItem(r: Option<R.Reading>, item: SyncItem, id: string): Option<R.Reading> {
    if Entitles(item, id) then Some(R.Apply(if r.Some? then r.value else R.FRESH, item.entitlement.state))
    else if r.Some? && StateFor(item, id) != [] then Some(R.Apply(r.value, StateFor(item, id)[0]))
    else r
  }

  lemma ReadItemLookup(readings: map<string, R.Reading>, item: SyncItem, id: string)
    ensures Lookup(ReadItem(readings, item), id) == ReadingItem(Lookup(readings, id), item, id)
  {}

  lemma ReadingStep(r: Option<R.Reading>, items: seq<SyncItem>, id: string)
    requires items != []
    ensures ReadingAfter(r, items, id) == ReadingItem(ReadingAfter(r, items[..|items| - 1], id), items[|items| - 1], id)
  {
    var init, item := items[..|items| - 1], items[|items| - 1];
    var states, offer := Arrived(init, id, r.Some?), StateFor(item, id);
    if !Entitled(init, id) {
      NoneArrived(init, id);
    }
    if offer == [] {
      assert Arrived(items, id, r.Some?) == states;
    } else {
      assert offer == [offer[0]];
      ApplySnoc(if r.Some? then r.value else R.FRESH, states, offer[0]);
      assert r.None? && !Entitled(items, id) ==> ReadingItem(ReadingAfter(r, init, id), item, id) == None;
      if r.Some? || Entitled(items, id) {
        assert Arrived(items, id, r.Some?) == states + [offer[0]];
      }
    }
  }

  lemma {:induction false} ReadingOfItems(v: ServerView, items: seq<SyncItem>, id: string)
    ensures Lookup(ViewItems(v, items).readings, id) == ReadingAfter(Lookup(v.readings, id), items, id)
  {
    if items != [] {
      var init := items[..|items| - 1];
      ReadingOfItems(v, init, id);
      ReadItemLookup(ViewItems(v, init).readings, items[|items| - 1], id);
      ReadingStep(Lookup(v.readings, id), items, id);
    }
  }

  // ------------------------------------------------------------- redelivery

  lemma {:induction false} AllArrive(items: seq<SyncItem>, id: string)
    ensures Arrived(items, id, true) == TooEarly(items, id) + Arrived(items, id, false)
  {
    if items != [] {
      var init := items[..|items| - 1];
      AllArrive(init, id);
      if !Entitled(items, id) {
        NoneArrived(init, id);
      }
    }
  }

  /**
   * Every reading state offered before its book's entitlement, to a device not holding the book yet, is
   * met by one stamped no earlier from the entitlement on.
   */
  ghost predicate Calm(readings: map<string, R.Reading>, items: seq<SyncItem>) {
    forall id :: id !in readings && Entitled(items, id) ==>
      R.MetStates(TooEarly(items, id), Arrived(items, id, false))
  }

  lemma ReadingRedelivered(v: ServerView, items: seq<SyncItem>, id: string)
    ensures var once := ViewItems(v, items);
            Lookup(ViewItems(once, items).readings, id) == Lookup(once.readings, id)
            <==> id in v.readings || !Entitled(items, id) || R.MetStates(TooEarly(items, id), Arrived(items, id, false))
  {
    ReadingOfItems(v, items, id);
    ReadingOfItems(ViewItems(v, items), items, id);
    if id in v.readings {
      R.AgainIsNothing(v.readings[id], Arrived(items, id, true));
    } else if Entitled(items, id) {
      AllArrive(items, id);
      R.EarlyStatesIff(TooEarly(items, id), Arrived(items, id, false));
    }
  }

  /**
   * Items delivered twice in a row leave what they leave delivered once, readings included, precisely
   * when they are calm; listings and URLs are left alike in any case.
   */
  lemma RedeliveryHarmless(v: ServerView, items: seq<SyncItem>)
    ensures ViewItems(ViewItems(v, items), items) == ViewItems(v, items) <==> Calm(v.readings, items)
  {
    var once := ViewItems(v, items);
    var twice := ViewItems(once, items);
    ListingsRedelivered(v, items);
    forall id
      ensures Lookup(twice.readings, id) == Lookup(once.readings, id)
              <==> id in v.readings || !Entitled(items, id) || R.MetStates(TooEarly(items, id), Arrived(items, id, false))
    {
      ReadingRedelivered(v, items, id);
    }
    if Calm(v.readings, items) {
      SameLookup(twice.readings, once.readings);
    }
  }

  /** A finished state stamped 10, then the same book's entitlement with a state stamped 5. */
  function EarlyPage(id: string, m: BookMetadata): seq<SyncItem> {
    [ChangedReadingState(R.ServerState(id, R.Finished, Some(10), None, None, None)),
     NewEntitlement(Entitlement(id, false, m, R.ServerState(id, R.InProgress, Some(5), None, None, None)))]
  }

  /** The failing case: to an empty library that page leaves the book in progress once delivered, finished twice delivered. */
  lemma EarlyPageChangesTwice(id: string, m: BookMetadata)
    ensures var page := EarlyPage(id, m);
            var once := ViewItems(NOTHING, page);
            && once.readings == map[id := R.Reading(R.InProgress, Some(5), None)]
            && ViewItems(once, page).readings == map[id := R.Reading(R.Finished, Some(10), None)]
            && !Calm(map[], page)
  {
    var page := EarlyPage(id, m);
    assert page[..1] == [page[0]] && page[..1][..0] == [];
    var once := ViewItems(NOTHING, page);
    assert ViewItems(NOTHING, page[..1]) == ViewItem(NOTHING, page[0]);
    assert ViewItems(once, page[..1]) == ViewItem(once, page[0]);
    assert once.readings == map[id := R.Reading(R.InProgress, Some(5), None)];
    RedeliveryHarmless(NOTHING, page);
  }
}
