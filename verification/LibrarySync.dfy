/** `sync_library` and whole runs of syncs: the sync token acknowledges exactly what was applied. */
module LibrarySync {
  import opened Basics
  import R = Reading
  import opened KoboDevice
  import opened DeviceView

  const MAX_SYNC_PAGES: nat := 50

  /** A page a server answered: its items, its `x-kobo-synctoken`, and whether it says `continue`. */
  datatype Page = Page(items: seq<SyncItem>, token: Option<string>, more: bool)

  /** What one `library_sync` request came to. */
  datatype Answer = NoAnswer | RejectedAnswer | Undecodable | Answered(page: Page)

  datatype Outcome = Synced(pages: nat) | Transport | Rejected | BadResponse | NeverEnds

  /** The server as one sync meets it: request number and echoed token to answer. */
  type Server = (nat, Option<string>) -> Answer

  /** A page's items applied, then its token kept. */
  function ApplyPage(d: DeviceState, page: Page): DeviceState {
    var d1 := ApplyItems(d, page.items);
    if page.token.Some? then d1.(syncToken := page.token) else d1
  }

  /** The rest of a sync from request `fetched` on. */
  function SyncFrom(d: DeviceState, serve: Server, fetched: nat): (DeviceState, Outcome)
    decreases if fetched <= MAX_SYNC_PAGES then MAX_SYNC_PAGES + 1 - fetched else 0
  {
    if fetched > MAX_SYNC_PAGES then (d, NeverEnds)
    else
      match serve(fetched, d.syncToken)
      case NoAnswer => (d, Transport)
      case RejectedAnswer => (d, Rejected)
      case Undecodable => (d, BadResponse)
      case Answered(page) =>
        var d1 := ApplyPage(d, page);
        if page.more then SyncFrom(d1, serve, fetched + 1) else (d1, Synced(fetched))
  }

  /** The item loop of `sync_library`. */
  method ApplyAllItems(device: Device, items: seq<SyncItem>)
    modifies device
    ensures device.State() == ApplyItems(old(device.State()), items)
  {
    for i := 0 to |items|
      invariant device.State() == ApplyItems(old(device.State()), items[..i])
    {
      device.Apply(items[i]);
      assert items[..i + 1][..i] == items[..i];
    }
    assert items[..|items|] == items;
  }

  /** `sync_library`. */
  method SyncLibrary(device: Device, serve: Server) returns (outcome: Outcome)
    modifies device
    ensures (device.State(), outcome) == SyncFrom(old(device.State()), serve, 1)
  {
    for fetched := 1 to MAX_SYNC_PAGES + 1
      invariant SyncFrom(device.State(), serve, fetched) == SyncFrom(old(device.State()), serve, 1)
    {
      var answer := serve(fetched, device.syncToken);
      match answer {
        case NoAnswer => return Transport;
        case RejectedAnswer => return Rejected;
        case Undecodable => return BadResponse;
        case Answered(page) =>
          ApplyAllItems(device, page.items);
          if page.token.Some? {
            device.syncToken := page.token;
          }
          if !page.more {
            return Synced(fetched);
          }
      }
    }
    return NeverEnds;
  }

  /** The items that sync applies, page after page. */
  function Taken(d: DeviceState, serve: Server, fetched: nat): seq<SyncItem>
    decreases if fetched <= MAX_SYNC_PAGES then MAX_SYNC_PAGES + 1 - fetched else 0
  {
    if fetched > MAX_SYNC_PAGES || !serve(fetched, d.syncToken).Answered? then []
    else
      var page := serve(fetched, d.syncToken).page;
      page.items + if page.more then Taken(ApplyPage(d, page), serve, fetched + 1) else []
  }

  // ------------------------------------------------------------- the ledger

  /** Everything a server has to deliver, page by page, and how many pages each token acknowledges. */
  datatype Ledger = Ledger(pages: seq<seq<SyncItem>>, acks: map<string, nat>)

  function Acked(l: Ledger, token: Option<string>): nat {
    if token.Some? && token.value in l.acks then l.acks[token.value] else 0
  }

  /** The items of the first `n` pages. */
  function Delivered(l: Ledger, n: nat): seq<SyncItem>
    requires n <= |l.pages|
  {
    if n == 0 then [] else Delivered(l, n - 1) + l.pages[n - 1]
  }

  /**
   * A page answering `token` carries either the next page the token does not acknowledge, under a
   * token that does (or, unless `tokens`, under none), or nothing new.
   */
  predicate PageFits(l: Ledger, tokens: bool, token: Option<string>, page: Page) {
    var k := Acked(l, token);
    if k < |l.pages| && page.items == l.pages[k]
    then (if page.token.Some? then Acked(l, page.token) == k + 1 else !tokens || page.items == [])
    else page.items == [] && (page.token.Some? ==> Acked(l, page.token) == k)
  }

  /** A server that delivers the ledger; with `tokens`, every page it delivers carries its token. */
  ghost predicate Honest(l: Ledger, tokens: bool, serve: Server) {
    forall n, t :: serve(n, t).Answered? ==> PageFits(l, tokens, t, serve(n, t).page)
  }

  /** The first `n` pages in order, each once or several times in a row. */
  predicate Repeats(l: Ledger, n: nat, items: seq<SyncItem>)
    requires n <= |l.pages|
    decreases |items| + n
  {
    if n == 0 then items == []
    else
      var p := l.pages[n - 1];
      && |p| <= |items| && items[|items| - |p|..] == p
      && var before := items[..|items| - |p|];
      (Repeats(l, n - 1, before) || (p != [] && Repeats(l, n, before)))
  }

  /**
   * `items` are exactly the pages `token` acknowledges; unless every page carries a token, each may have come
   * several times and the one page after them may have come too.
   */
  predicate Acknowledged(l: Ledger, tokens: bool, token: Option<string>, items: seq<SyncItem>) {
    var k := Acked(l, token);
    && k <= |l.pages|
    && if tokens then items == Delivered(l, k)
       else Repeats(l, k, items) || (k < |l.pages| && Repeats(l, k + 1, items))
  }

  lemma RepeatsMore(l: Ledger, n: nat, items: seq<SyncItem>)
    requires n < |l.pages| && (Repeats(l, n, items) || Repeats(l, n + 1, items))
    ensures Repeats(l, n + 1, items + l.pages[n])
  {
    var p := l.pages[n];
    var more := items + p;
    assert more[|more| - |p|..] == p && more[..|more| - |p|] == items;
    if p == [] {
      assert more == items;
    }
  }

  lemma PageAcknowledged(l: Ledger, tokens: bool, token: Option<string>, items: seq<SyncItem>, page: Page)
    requires Acknowledged(l, tokens, token, items) && PageFits(l, tokens, token, page)
    ensures Acknowledged(l, tokens, if page.token.Some? then page.token else token, items + page.items)
  {
    var k := Acked(l, token);
    if page.items == [] {
      assert items + page.items == items;
    }
    if !tokens && k < |l.pages| && page.items == l.pages[k] {
      RepeatsMore(l, k, items);
    }
  }

  // ----------------------------------------------------- a device and its log

  /** What has gone into the server's part of a device: items delivered, and marks made by reading on it. */
  datatype Entry = Item(item: SyncItem) | Own(book: string, mark: Mark)

  /** A device with its log since it was in a known state. */
  datatype Tracked = Tracked(device: DeviceState, log: seq<Entry>)

  function ViewEntries(v: ServerView, log: seq<Entry>): ServerView {
    if log == [] then v
    else
      var before := ViewEntries(v, log[..|log| - 1]);
      match log[|log| - 1]
      case Item(item) => ViewItem(before, item)
      case Own(book, mark) => ViewMark(before, book, mark)
  }

  function Items(log: seq<Entry>): seq<SyncItem> {
    if log == [] then []
    else Items(log[..|log| - 1]) + match log[|log| - 1] case Item(item) => [item] case Own(_, _) => []
  }

  function Entries(items: seq<SyncItem>): seq<Entry> {
    if items == [] then [] else Entries(items[..|items| - 1]) + [Item(items[|items| - 1])]
  }

  lemma Reassociate<T>(a: seq<T>, b: seq<T>, c: seq<T>)
    ensures (a + b) + c == a + (b + c)
  {}

  lemma LogItem(v: ServerView, log: seq<Entry>, item: SyncItem)
    ensures ViewEntries(v, log + [Item(item)]) == ViewItem(ViewEntries(v, log), item)
    ensures Items(log + [Item(item)]) == Items(log) + [item]
  {
    assert (log + [Item(item)])[..|log|] == log;
  }

  lemma {:induction false} LogItems(v: ServerView, log: seq<Entry>, items: seq<SyncItem>)
    ensures ViewEntries(v, log + Entries(items)) == ViewItems(ViewEntries(v, log), items)
    ensures Items(log + Entries(items)) == Items(log) + items
    decreases |items|
  {
    if items == [] {
      assert log + Entries(items) == log && Items(log) + items == Items(log);
    } else {
      var init, last := items[..|items| - 1], items[|items| - 1];
      LogItems(v, log, init);
      LogItem(v, log + Entries(init), last);
      Reassociate(log, Entries(init), [Item(last)]);
      Reassociate(Items(log), init, [last]);
      assert items == init + [last];
    }
  }

  lemma LogMark(v: ServerView, log: seq<Entry>, book: string, mark: Mark)
    ensures ViewEntries(v, log + [Own(book, mark)]) == ViewMark(ViewEntries(v, log), book, mark)
    ensures Items(log + [Own(book, mark)]) == Items(log)
  {
    assert (log + [Own(book, mark)])[..|log|] == log;
  }

  /**
   * The server's part of the device, readings included, is the fold of its log, and the items of the log
   * are the pages its token acknowledges.
   */
  predicate InStep(l: Ledger, tokens: bool, base: ServerView, t: Tracked) {
    View(t.device) == ViewEntries(base, t.log) && Acknowledged(l, tokens, t.device.syncToken, Items(t.log))
  }

  /** What a sync makes of a device and its log. */
  function AfterSync(t: Tracked, serve: Server, fetched: nat): Tracked {
    Tracked(SyncFrom(t.device, serve, fetched).0, t.log + Entries(Taken(t.device, serve, fetched)))
  }

  lemma PageInStep(l: Ledger, tokens: bool, base: ServerView, t: Tracked, page: Page)
    requires InStep(l, tokens, base, t) && PageFits(l, tokens, t.device.syncToken, page)
    ensures InStep(l, tokens, base, AfterPage(t, page))
  {
    ItemsKeep(t.device, page.items);
    ViewOfItems(t.device, page.items);
    LogItems(base, t.log, page.items);
    PageAcknowledged(l, tokens, t.device.syncToken, Items(t.log), page);
  }

  lemma {:induction false} EntriesConcat(a: seq<SyncItem>, b: seq<SyncItem>)
    ensures Entries(a + b) == Entries(a) + Entries(b)
    decreases |b|
  {
    if b == [] {
      assert a + b == a;
    } else {
      EntriesConcat(a, b[..|b| - 1]);
      assert (a + b)[..|a + b| - 1] == a + b[..|b| - 1];
    }
  }

  function AfterPage(t: Tracked, page: Page): Tracked {
    Tracked(ApplyPage(t.device, page), t.log + Entries(page.items))
  }

  lemma SyncUnrolls(t: Tracked, serve: Server, fetched: nat)
    requires fetched <= MAX_SYNC_PAGES && serve(fetched, t.device.syncToken).Answered?
    ensures var page := serve(fetched, t.device.syncToken).page;
            AfterSync(t, serve, fetched)
            == if page.more then AfterSync(AfterPage(t, page), serve, fetched + 1) else AfterPage(t, page)
  {
    var page := serve(fetched, t.device.syncToken).page;
    var rest := if page.more then Taken(ApplyPage(t.device, page), serve, fetched + 1) else [];
    EntriesConcat(page.items, rest);
    assert page.items + [] == page.items;
    assert t.log + Entries(page.items + rest) == (t.log + Entries(page.items)) + Entries(rest);
  }

  lemma SyncStops(t: Tracked, serve: Server, fetched: nat)
    requires fetched > MAX_SYNC_PAGES || !serve(fetched, t.device.syncToken).Answered?
    ensures AfterSync(t, serve, fetched) == t
  {
    assert t.log + [] == t.log;
  }

  lemma {:induction false} SyncKeeps(t: Tracked, serve: Server, fetched: nat)
    ensures Keeps(t.device, AfterSync(t, serve, fetched).device)
    decreases if fetched <= MAX_SYNC_PAGES then MAX_SYNC_PAGES + 1 - fetched else 0
  {
    ItemsKeep(t.device, []);
    if fetched <= MAX_SYNC_PAGES && serve(fetched, t.device.syncToken).Answered? {
      var page := serve(fetched, t.device.syncToken).page;
      ItemsKeep(t.device, page.items);
      SyncUnrolls(t, serve, fetched);
      if page.more {
        SyncKeeps(AfterPage(t, page), serve, fetched + 1);
        KeepsOn(t.device, AfterPage(t, page).device, AfterSync(t, serve, fetched).device);
      }
    } else {
      SyncStops(t, serve, fetched);
    }
  }

  lemma AnswerFits(l: Ledger, tokens: bool, serve: Server, n: nat, token: Option<string>)
    requires Honest(l, tokens, serve) && serve(n, token).Answered?
    ensures PageFits(l, tokens, token, serve(n, token).page)
  {}

  lemma {:induction false} SyncLogged(l: Ledger, tokens: bool, base: ServerView, t: Tracked, serve: Server, fetched: nat)
    requires Honest(l, tokens, serve) && InStep(l, tokens, base, t)
    ensures InStep(l, tokens, base, AfterSync(t, serve, fetched))
    decreases if fetched <= MAX_SYNC_PAGES then MAX_SYNC_PAGES + 1 - fetched else 0
  {
    if fetched <= MAX_SYNC_PAGES && serve(fetched, t.device.syncToken).Answered? {
      var page := serve(fetched, t.device.syncToken).page;
      AnswerFits(l, tokens, serve, fetched, t.device.syncToken);
      PageInStep(l, tokens, base, t, page);
      if page.more {
        SyncLogged(l, tokens, base, AfterPage(t, page), serve, fetched + 1);
      }
      SyncUnrolls(t, serve, fetched);
    } else {
      SyncStops(t, serve, fetched);
    }
  }

  /** A sync, wherever a failure or the page cap cuts it off, leaves the device in step and keeps what it holds. */
  lemma SyncInStep(l: Ledger, tokens: bool, base: ServerView, t: Tracked, serve: Server)
    requires Honest(l, tokens, serve) && InStep(l, tokens, base, t)
    ensures var after := AfterSync(t, serve, 1);
            InStep(l, tokens, base, after) && Keeps(t.device, after.device)
  {
    SyncLogged(l, tokens, base, t, serve, 1);
    SyncKeeps(t, serve, 1);
  }

  // --------------------------------------------------------------- whole runs

  /** The running device and the state file. */
  datatype World = World(live: Tracked, file: Tracked)

  /** What can happen: a page-by-page sync, an action on the device, another local change, a save, or a crash and restart. */
  datatype Event = Sync(serve: Server) | Acts(action: LocalAction) | Local(after: DeviceState) | Save | Crash

  /** A local change (a download, a cover) leaves the server's part and the token alone. */
  predicate IsLocal(before: DeviceState, after: DeviceState) {
    View(after) == View(before) && after.syncToken == before.syncToken
  }

  ghost predicate Legal(l: Ledger, tokens: bool, w: World, e: Event) {
    match e
    case Sync(serve) => Honest(l, tokens, serve)
    case Acts(_) => true
    case Local(after) => IsLocal(w.live.device, after)
    case Save => true
    case Crash => true
  }

  function AfterAction(t: Tracked, a: LocalAction): Tracked {
    Tracked(Done(t.device, a).0,
            t.log + match MarkOf(t.device, a) case Some(m) => [Own(a.book, m)] case None => [])
  }

  function Next(w: World, e: Event): World {
    match e
    case Sync(serve) => w.(live := AfterSync(w.live, serve, 1))
    case Acts(a) => w.(live := AfterAction(w.live, a))
    case Local(after) => w.(live := w.live.(device := after))
    case Save => w.(file := w.live)
    case Crash => w.(live := w.file)
  }

  function Run(w: World, events: seq<Event>): World {
    if events == [] then w else Next(Run(w, events[..|events| - 1]), events[|events| - 1])
  }

  ghost predicate LegalRun(l: Ledger, tokens: bool, w: World, events: seq<Event>) {
    events != [] ==>
      var init := events[..|events| - 1];
      LegalRun(l, tokens, w, init) && Legal(l, tokens, Run(w, init), events[|events| - 1])
  }

  /** An action goes into the log as the mark it makes, and acknowledges nothing. */
  lemma ActionInStep(l: Ledger, tokens: bool, base: ServerView, t: Tracked, a: LocalAction)
    requires InStep(l, tokens, base, t)
    ensures InStep(l, tokens, base, AfterAction(t, a))
  {
    ActionInView(t.device, a);
    match MarkOf(t.device, a)
    case Some(m) => LogMark(base, t.log, a.book, m);
    case None => assert AfterAction(t, a).log == t.log;
  }

  /**
   * Over any run of syncs cut off anywhere, actions, saves and crashes, the running device and the saved one
   * are each the fold of their own log, whose items are the pages their own token acknowledges.
   */
  lemma {:induction false} RunInStep(l: Ledger, tokens: bool, base: ServerView, w: World, events: seq<Event>)
    requires LegalRun(l, tokens, w, events) && InStep(l, tokens, base, w.live) && InStep(l, tokens, base, w.file)
    ensures InStep(l, tokens, base, Run(w, events).live) && InStep(l, tokens, base, Run(w, events).file)
  {
    if events != [] {
      var init, e := events[..|events| - 1], events[|events| - 1];
      RunInStep(l, tokens, base, w, init);
      if e.Sync? {
        SyncInStep(l, tokens, base, Run(w, init).live, e.serve);
      } else if e.Acts? {
        ActionInStep(l, tokens, base, Run(w, init).live, e.action);
      }
    }
  }

  // ------------------------------------------------------------ interruptions

  /** Every page is calm for the library the pages before it leave: it can come again without a trace. */
  ghost predicate CalmPages(l: Ledger, base: ServerView, n: nat)
    requires n <= |l.pages|
  {
    forall k :: 0 <= k < n ==> Calm(ViewItems(base, Delivered(l, k)).readings, l.pages[k])
  }

  predicate SameListings(v: ServerView, w: ServerView) {
    v.books == w.books && v.urls == w.urls
  }

  lemma {:induction false} ListingsApart(v: ServerView, w: ServerView, items: seq<SyncItem>)
    requires SameListings(v, w)
    ensures SameListings(ViewItems(v, items), ViewItems(w, items))
  {
    if items != [] {
      ListingsApart(v, w, items[..|items| - 1]);
    }
  }

  /** `items` leave the listings and URLs of the first `n` pages, and the same readings too if those pages are calm. */
  ghost predicate NoTrace(l: Ledger, base: ServerView, n: nat, items: seq<SyncItem>)
    requires n <= |l.pages|
  {
    && SameListings(ViewItems(base, items), ViewItems(base, Delivered(l, n)))
    && (CalmPages(l, base, n) ==> ViewItems(base, items) == ViewItems(base, Delivered(l, n)))
  }

  lemma NextPageNoTrace(l: Ledger, base: ServerView, n: nat, before: seq<SyncItem>, items: seq<SyncItem>)
    requires 0 < n <= |l.pages| && items == before + l.pages[n - 1]
    ensures NoTrace(l, base, n - 1, before) ==> NoTrace(l, base, n, items)
  {
    var p, delivered := l.pages[n - 1], Delivered(l, n - 1);
    ViewItemsConcat(base, before, p);
    ViewItemsConcat(base, delivered, p);
    if SameListings(ViewItems(base, before), ViewItems(base, delivered)) {
      ListingsApart(ViewItems(base, before), ViewItems(base, delivered), p);
    }
  }

  lemma SamePageNoTrace(l: Ledger, base: ServerView, n: nat, before: seq<SyncItem>, items: seq<SyncItem>)
    requires 0 < n <= |l.pages| && items == before + l.pages[n - 1]
    ensures NoTrace(l, base, n, before) ==> NoTrace(l, base, n, items)
  {
    var p, once := l.pages[n - 1], ViewItems(base, Delivered(l, n - 1));
    ViewItemsConcat(base, before, p);
    ViewItemsConcat(base, Delivered(l, n - 1), p);
    if SameListings(ViewItems(base, before), ViewItems(once, p)) {
      ListingsApart(ViewItems(base, before), ViewItems(once, p), p);
    }
    ListingsRedelivered(once, p);
    RedeliveryHarmless(once, p);
  }

  lemma LastCut(l: Ledger, n: nat, items: seq<SyncItem>) returns (before: seq<SyncItem>)
    requires 0 < n <= |l.pages| && Repeats(l, n, items)
    ensures items == before + l.pages[n - 1] && |before| <= |items|
    ensures Repeats(l, n - 1, before) || (|before| < |items| && Repeats(l, n, before))
  {
    before := items[..|items| - |l.pages[n - 1]|];
  }

  lemma NothingNoTrace(l: Ledger, base: ServerView)
    ensures NoTrace(l, base, 0, [])
  {}

  /** Repeated pages leave the same listings and URLs as pages delivered once; calm ones the same readings too. */
  lemma {:induction false} RepeatsLeaveNoTrace(l: Ledger, base: ServerView, n: nat, items: seq<SyncItem>)
    requires n <= |l.pages| && Repeats(l, n, items)
    ensures NoTrace(l, base, n, items)
    decreases |items| + n
  {
    if n == 0 {
      NothingNoTrace(l, base);
    } else {
      var before := LastCut(l, n, items);
      if Repeats(l, n - 1, before) {
        RepeatsLeaveNoTrace(l, base, n - 1, before);
        NextPageNoTrace(l, base, n, before, items);
      } else {
        RepeatsLeaveNoTrace(l, base, n, before);
        SamePageNoTrace(l, base, n, before, items);
      }
    }
  }

  lemma {:induction false} ListingsIgnoreMarks(v: ServerView, log: seq<Entry>)
    ensures SameListings(ViewEntries(v, log), ViewItems(v, Items(log)))
  {
    if log != [] {
      var init := log[..|log| - 1];
      ListingsIgnoreMarks(v, init);
      match log[|log| - 1]
      case Item(item) =>
        assert Items(log)[..|Items(log)| - 1] == Items(init);
      case Own(_, _) =>
        assert Items(log) == Items(init);
    }
  }

  predicate Unmarked(log: seq<Entry>) {
    forall i :: 0 <= i < |log| ==> log[i].Item?
  }

  lemma {:induction false} UnmarkedFold(v: ServerView, log: seq<Entry>)
    requires Unmarked(log)
    ensures ViewEntries(v, log) == ViewItems(v, Items(log))
  {
    if log != [] {
      UnmarkedFold(v, log[..|log| - 1]);
      assert Items(log)[..|Items(log)| - 1] == Items(log[..|log| - 1]);
    }
  }

  /** What a device that acknowledged every page shows. */
  lemma WholeLibrary(l: Ledger, tokens: bool, base: ServerView, t: Tracked)
    requires InStep(l, tokens, base, t) && Acked(l, t.device.syncToken) == |l.pages|
    ensures SameListings(View(t.device), ViewItems(base, Delivered(l, |l.pages|)))
    ensures Unmarked(t.log) && (tokens || CalmPages(l, base, |l.pages|)) ==>
              View(t.device) == ViewItems(base, Delivered(l, |l.pages|))
  {
    ListingsIgnoreMarks(base, t.log);
    if !tokens {
      RepeatsLeaveNoTrace(l, base, |l.pages|, Items(t.log));
    }
    if Unmarked(t.log) {
      UnmarkedFold(base, t.log);
    }
  }

  /**
   * However often it was interrupted, a device that has acknowledged every page shows the listings and URLs
   * of one uninterrupted sync; and, unless it was read on, its reading states too, if every page carried a
   * token or every page is calm.
   */
  lemma InterruptionsLeaveNoTrace(l: Ledger, tokens: bool, base: ServerView, w: World, events: seq<Event>, whole: Tracked)
    requires LegalRun(l, tokens, w, events) && InStep(l, tokens, base, w.live) && InStep(l, tokens, base, w.file)
    requires Acked(l, Run(w, events).live.device.syncToken) == |l.pages|
    requires InStep(l, tokens, base, whole) && Acked(l, whole.device.syncToken) == |l.pages|
    ensures SameListings(View(Run(w, events).live.device), View(whole.device))
    ensures Unmarked(Run(w, events).live.log) && Unmarked(whole.log) && (tokens || CalmPages(l, base, |l.pages|)) ==>
              View(Run(w, events).live.device) == View(whole.device)
  {
    RunInStep(l, tokens, base, w, events);
    WholeLibrary(l, tokens, base, Run(w, events).live);
    WholeLibrary(l, tokens, base, whole);
  }

  /** A device that read nothing itself: each book's reading is its registers given exactly the states acknowledged pages offer it. */
  lemma ReadingsAreRegisters(l: Ledger, base: ServerView, t: Tracked, id: string)
    requires InStep(l, true, base, t) && Unmarked(t.log)
    ensures Lookup(View(t.device).readings, id)
            == ReadingAfter(Lookup(base.readings, id), Delivered(l, Acked(l, t.device.syncToken)), id)
  {
    UnmarkedFold(base, t.log);
    ReadingOfItems(base, Items(t.log), id);
  }

  /** A new device, or one just reset, is in step with every ledger from an empty library. */
  lemma NewIsInStep(l: Ledger, tokens: bool, hardwareId: string)
    ensures InStep(l, tokens, NOTHING, Tracked(NewDevice(hardwareId), []))
  {
    assert View(NewDevice(hardwareId)).books == map[] && View(NewDevice(hardwareId)).readings == map[];
  }

  /** A device that forgot its server's token is in step with any ledger from what it holds. */
  lemma ForgottenIsInStep(l: Ledger, tokens: bool, d: DeviceState, tokenChanged: bool, url: string)
    requires tokenChanged || HoldsForeignUrl(d.downloadUrls, url)
    ensures var f := Forget(d, tokenChanged, url);
            InStep(l, tokens, View(f), Tracked(f, [])) && f.library == d.library
  {}
}
