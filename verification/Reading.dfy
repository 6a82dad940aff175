/** The device's reading progress, reconciled with the server's: two last-writer-wins registers. */
module Reading {
  import opened Basics

  datatype ReadStatus = ReadyToRead | InProgress | Finished

  datatype KoboSpan = KoboSpan(source: string, value: string)

  datatype Bookmark = Bookmark(percent: Option<nat>, location: Option<KoboSpan>, modified: int)

  datatype Reading = Reading(status: ReadStatus, statusModified: Option<int>, bookmark: Option<Bookmark>)

  const FRESH: Reading := Reading(ReadyToRead, None, None)

  /** A server's reading state; a stamp that is absent or does not parse is `None`. */
  datatype ServerState = ServerState(
    entitlementId: string,
    status: ReadStatus, statusStamp: Option<int>,
    progressPercent: Option<int>, location: Option<KoboSpan>, bookmarkStamp: Option<int>)

  /** `newer`. */
  predicate Newer(server: int, device: Option<int>) {
    device.None? || server > device.value
  }

  function PercentNew(raw: Option<int>): Option<nat> {
    if raw.Some? && 0 <= raw.value <= 100 then Some(raw.value) else None
  }

  function BookmarkStamp(r: Reading): Option<int> {
    match r.bookmark case Some(b) => Some(b.modified) case None => None
  }

  /** `Reading::apply`. */
  function Apply(r: Reading, server: ServerState): Reading {
    var r1 :=
      if server.statusStamp.Some? && Newer(server.statusStamp.value, r.statusModified)
      then r.(status := server.status, statusModified := server.statusStamp) else r;
    if server.bookmarkStamp.Some? && Newer(server.bookmarkStamp.value, BookmarkStamp(r1))
    then r1.(bookmark := Some(Bookmark(PercentNew(server.progressPercent), server.location, server.bookmarkStamp.value)))
    else r1
  }

  function ApplyAll(r: Reading, states: seq<ServerState>): Reading {
    if states == [] then r else Apply(ApplyAll(r, states[..|states| - 1]), states[|states| - 1])
  }

  // ------------------------------------------------------- the two registers

  datatype Register<V> = Register(value: V, stamp: Option<int>)

  function Adopt<V>(mine: Register<V>, offer: Register<V>): Register<V> {
    if offer.stamp.Some? && Newer(offer.stamp.value, mine.stamp) then offer else mine
  }

  function AdoptAll<V>(mine: Register<V>, offers: seq<Register<V>>): Register<V> {
    if offers == [] then mine else Adopt(AdoptAll(mine, offers[..|offers| - 1]), offers[|offers| - 1])
  }

  function StatusOf(r: Reading): Register<ReadStatus> {
    Register(r.status, r.statusModified)
  }

  function BookmarkOf(r: Reading): Register<Option<Bookmark>> {
    Register(r.bookmark, BookmarkStamp(r))
  }

  function StatusOffer(s: ServerState): Register<ReadStatus> {
    Register(s.status, s.statusStamp)
  }

  function BookmarkOffer(s: ServerState): Register<Option<Bookmark>> {
    match s.bookmarkStamp
    case Some(at) => Register(Some(Bookmark(PercentNew(s.progressPercent), s.location, at)), Some(at))
    case None => Register(None, None)
  }

  function StatusOffers(states: seq<ServerState>): (offers: seq<Register<ReadStatus>>)
    ensures |offers| == |states|
    ensures forall i :: 0 <= i < |states| ==> offers[i] == StatusOffer(states[i])
  {
    if states == [] then [] else StatusOffers(states[..|states| - 1]) + [StatusOffer(states[|states| - 1])]
  }

  function BookmarkOffers(states: seq<ServerState>): (offers: seq<Register<Option<Bookmark>>>)
    ensures |offers| == |states|
    ensures forall i :: 0 <= i < |states| ==> offers[i] == BookmarkOffer(states[i])
  {
    if states == [] then [] else BookmarkOffers(states[..|states| - 1]) + [BookmarkOffer(states[|states| - 1])]
  }

  lemma AdoptSnoc<V>(mine: Register<V>, offers: seq<Register<V>>, o: Register<V>)
    ensures AdoptAll(mine, offers + [o]) == Adopt(AdoptAll(mine, offers), o)
  {
    assert (offers + [o])[..|offers|] == offers;
  }

  /** Status and bookmark evolve apart: each depends only on its own value and its own offers. */
  lemma {:induction false} TwoRegisters(r: Reading, states: seq<ServerState>)
    ensures StatusOf(ApplyAll(r, states)) == AdoptAll(StatusOf(r), StatusOffers(states))
    ensures BookmarkOf(ApplyAll(r, states)) == AdoptAll(BookmarkOf(r), BookmarkOffers(states))
  {
    if states != [] {
      var init, s := states[..|states| - 1], states[|states| - 1];
      TwoRegisters(r, init);
      AdoptSnoc(StatusOf(r), StatusOffers(init), StatusOffer(s));
      AdoptSnoc(BookmarkOf(r), BookmarkOffers(init), BookmarkOffer(s));
    }
  }

  /** `offers[k]` wins: it beats the device's own stamp, no offer is stamped later, and no earlier offer as late. */
  predicate Wins<V>(mine: Register<V>, offers: seq<Register<V>>, k: nat) {
    && k < |offers| && offers[k].stamp.Some? && Newer(offers[k].stamp.value, mine.stamp)
    && (forall j :: 0 <= j < |offers| && offers[j].stamp.Some? ==> offers[j].stamp.value <= offers[k].stamp.value)
    && (forall j :: 0 <= j < k && offers[j].stamp.Some? ==> offers[j].stamp.value < offers[k].stamp.value)
  }

  predicate NoneNewer<V>(mine: Register<V>, offers: seq<Register<V>>) {
    forall j :: 0 <= j < |offers| && offers[j].stamp.Some? ==> !Newer(offers[j].stamp.value, mine.stamp)
  }

  /** A register ends as the first arrived among the offers with the greatest stamp (`Some(k)`), or untouched. */
  lemma {:induction false} FirstOfLatest<V>(mine: Register<V>, offers: seq<Register<V>>) returns (winner: Option<nat>)
    ensures winner.None? ==> NoneNewer(mine, offers) && AdoptAll(mine, offers) == mine
    ensures winner.Some? ==> Wins(mine, offers, winner.value) && AdoptAll(mine, offers) == offers[winner.value]
  {
    if offers == [] {
      return None;
    }
    var n := |offers| - 1;
    winner := FirstOfLatest(mine, offers[..n]);
    var held := AdoptAll(mine, offers[..n]);
    assert winner.Some? ==> held == offers[winner.value];
    if offers[n].stamp.Some? && Newer(offers[n].stamp.value, held.stamp) {
      LatestWins(mine, offers, winner);
      winner := Some(n);
    } else if winner.Some? {
      var k := winner.value;
      assert forall j :: 0 <= j < n ==> offers[j] == offers[..n][j];
    }
  }

  /**
   * The bookmark a reading ends with is its own, or that of the first of the latest stamped states that beat it: its
   * place, its stamp, and its percent when that is one from 0 to 100.
   */
  lemma BookmarkAdopted(r: Reading, states: seq<ServerState>) returns (winner: Option<nat>)
    ensures winner.None? ==> ApplyAll(r, states).bookmark == r.bookmark
    ensures winner.Some? ==>
              && Wins(BookmarkOf(r), BookmarkOffers(states), winner.value)
              && var s := states[winner.value];
                 var percent := match s.progressPercent case Some(p) => (if 0 <= p <= 100 then Some(p) else None) case None => None;
                 s.bookmarkStamp.Some?
                 && ApplyAll(r, states).bookmark == Some(Bookmark(percent, s.location, s.bookmarkStamp.value))
  {
    TwoRegisters(r, states);
    winner := FirstOfLatest(BookmarkOf(r), BookmarkOffers(states));
  }

  /** Likewise the status it ends with. */
  lemma StatusAdopted(r: Reading, states: seq<ServerState>) returns (winner: Option<nat>)
    ensures winner.None? ==> ApplyAll(r, states).status == r.status && ApplyAll(r, states).statusModified == r.statusModified
    ensures winner.Some? ==>
              && Wins(StatusOf(r), StatusOffers(states), winner.value)
              && ApplyAll(r, states).status == states[winner.value].status
              && ApplyAll(r, states).statusModified == states[winner.value].statusStamp
  {
    TwoRegisters(r, states);
    winner := FirstOfLatest(StatusOf(r), StatusOffers(states));
  }

  lemma LatestWins<V>(mine: Register<V>, offers: seq<Register<V>>, held: Option<nat>)
    requires offers != [] && var n := |offers| - 1;
      && offers[n].stamp.Some?
      && (held.None? ==> NoneNewer(mine, offers[..n]) && Newer(offers[n].stamp.value, mine.stamp))
      && (held.Some? ==> Wins(mine, offers[..n], held.value) && Newer(offers[n].stamp.value, offers[held.value].stamp))
    ensures Wins(mine, offers, |offers| - 1)
  {
    var n := |offers| - 1;
    forall j | 0 <= j < n && offers[j].stamp.Some? ensures offers[j].stamp.value < offers[n].stamp.value {
      assert offers[j] == offers[..n][j];
    }
  }

  /** A register's stamp never falls. */
  lemma {:induction false} StampsRise<V>(mine: Register<V>, offers: seq<Register<V>>, n: nat)
    requires n <= |offers| && AdoptAll(mine, offers[..n]).stamp.Some?
    ensures AdoptAll(mine, offers).stamp.Some?
    ensures AdoptAll(mine, offers[..n]).stamp.value <= AdoptAll(mine, offers).stamp.value
    decreases |offers|
  {
    if n == |offers| {
      assert offers[..n] == offers;
    } else {
      assert offers[..|offers| - 1][..n] == offers[..n];
      StampsRise(mine, offers[..|offers| - 1], n);
    }
  }

  /** Offers stamped alike carry the same value. */
  predicate Agree<V(==)>(offers: seq<Register<V>>) {
    forall i, j | 0 <= i < |offers| && 0 <= j < |offers| && offers[i].stamp.Some? && offers[i].stamp == offers[j].stamp ::
      offers[i].value == offers[j].value
  }

  /** The same things were delivered, in any order and any number of times. */
  ghost predicate SameDelivered<T(!new)>(a: seq<T>, b: seq<T>) {
    forall x :: x in a <==> x in b
  }

  /** Then neither order nor redelivery matters (distinct stamps always agree). */
  lemma OrderFree<V(!new)>(mine: Register<V>, a: seq<Register<V>>, b: seq<Register<V>>)
    requires SameDelivered(a, b) && Agree(a)
    ensures AdoptAll(mine, a) == AdoptAll(mine, b)
  {
    var k := FirstOfLatest(mine, a);
    var l := FirstOfLatest(mine, b);
    if k.Some? {
      assert a[k.value] in b;
    }
    if l.Some? {
      assert b[l.value] in a;
    }
    if k.Some? && l.Some? {
      assert a[k.value].stamp == b[l.value].stamp;
    }
  }

  lemma OffersDelivered(a: seq<ServerState>, b: seq<ServerState>)
    requires forall s :: s in a ==> s in b
    ensures forall o :: o in StatusOffers(a) ==> o in StatusOffers(b)
    ensures forall o :: o in BookmarkOffers(a) ==> o in BookmarkOffers(b)
  {
    forall i | 0 <= i < |a|
      ensures StatusOffers(a)[i] in StatusOffers(b) && BookmarkOffers(a)[i] in BookmarkOffers(b)
    {
      assert a[i] in b;
      var k :| 0 <= k < |b| && b[k] == a[i];
      assert StatusOffers(b)[k] == StatusOffers(a)[i] && BookmarkOffers(b)[k] == BookmarkOffers(a)[i];
    }
  }

  /** Delivered in any order, any number of times, states that agree where stamped alike leave the same reading. */
  lemma ReadingOrderFree(r: Reading, a: seq<ServerState>, b: seq<ServerState>)
    requires SameDelivered(a, b)
    requires Agree(StatusOffers(a)) && Agree(BookmarkOffers(a))
    ensures ApplyAll(r, a) == ApplyAll(r, b)
  {
    TwoRegisters(r, a);
    TwoRegisters(r, b);
    OffersDelivered(a, b);
    OffersDelivered(b, a);
    OrderFree(StatusOf(r), StatusOffers(a), StatusOffers(b));
    OrderFree(BookmarkOf(r), BookmarkOffers(a), BookmarkOffers(b));
  }

  // ----------------------------------------------------- delivered once more

  /** A register stays as it is exactly when no offer beats it. */
  lemma UntouchedIff<V>(mine: Register<V>, offers: seq<Register<V>>)
    ensures AdoptAll(mine, offers) == mine <==> NoneNewer(mine, offers)
  {
    var winner := FirstOfLatest(mine, offers);
  }

  /** What a register has been offered no longer beats it. */
  lemma OfferedIsNotNewer<V>(mine: Register<V>, offers: seq<Register<V>>)
    ensures NoneNewer(AdoptAll(mine, offers), offers)
  {
    var winner := FirstOfLatest(mine, offers);
  }

  lemma NoneNewerConcat<V>(mine: Register<V>, a: seq<Register<V>>, b: seq<Register<V>>)
    ensures NoneNewer(mine, a + b) <==> NoneNewer(mine, a) && NoneNewer(mine, b)
  {
    if NoneNewer(mine, a + b) {
      forall j | 0 <= j < |a| ensures a[j] == (a + b)[j] {}
      forall j | 0 <= j < |b| ensures b[j] == (a + b)[|a| + j] {}
    }
  }

  /** Every stamped offer of `early` is met by one of `later` stamped no earlier. */
  predicate Met<V>(early: seq<Register<V>>, later: seq<Register<V>>) {
    forall i :: 0 <= i < |early| && early[i].stamp.Some? ==>
      exists j :: 0 <= j < |later| && later[j].stamp.Some? && early[i].stamp.value <= later[j].stamp.value
  }

  /**
   * An unstamped register given `later` keeps its value when all of `early` and `later` are offered next
   * exactly when `later` meets everything in `early`.
   */
  lemma EarlyOffersIff<V>(mine: Register<V>, early: seq<Register<V>>, later: seq<Register<V>>)
    requires mine.stamp.None?
    ensures var held := AdoptAll(mine, later);
            AdoptAll(held, early + later) == held <==> Met(early, later)
  {
    var held := AdoptAll(mine, later);
    UntouchedIff(held, early + later);
    NoneNewerConcat(held, early, later);
    OfferedIsNotNewer(mine, later);
    var winner := FirstOfLatest(mine, later);
  }

  /** The same of states: each stamp of an early state is met by one no earlier among the later states. */
  predicate MetStates(early: seq<ServerState>, later: seq<ServerState>) {
    Met(StatusOffers(early), StatusOffers(later)) && Met(BookmarkOffers(early), BookmarkOffers(later))
  }

  lemma {:induction false} OffersConcat(a: seq<ServerState>, b: seq<ServerState>)
    ensures StatusOffers(a + b) == StatusOffers(a) + StatusOffers(b)
    ensures BookmarkOffers(a + b) == BookmarkOffers(a) + BookmarkOffers(b)
  {}

  lemma SameReading(r: Reading, s: Reading)
    ensures r == s <==> StatusOf(r) == StatusOf(s) && BookmarkOf(r) == BookmarkOf(s)
  {}

  /** A fresh reading given `later` is left alone by `early + later` exactly when `later` meets `early`. */
  lemma EarlyStatesIff(early: seq<ServerState>, later: seq<ServerState>)
    ensures var held := ApplyAll(FRESH, later);
            ApplyAll(held, early + later) == held <==> MetStates(early, later)
  {
    var held := ApplyAll(FRESH, later);
    TwoRegisters(FRESH, later);
    TwoRegisters(held, early + later);
    OffersConcat(early, later);
    EarlyOffersIff(StatusOf(FRESH), StatusOffers(early), StatusOffers(later));
    EarlyOffersIff(BookmarkOf(FRESH), BookmarkOffers(early), BookmarkOffers(later));
    SameReading(ApplyAll(held, early + later), held);
  }

  /** States delivered to a held book a second time change nothing. */
  lemma AgainIsNothing(r: Reading, states: seq<ServerState>)
    ensures ApplyAll(ApplyAll(r, states), states) == ApplyAll(r, states)
  {
    var held := ApplyAll(r, states);
    TwoRegisters(r, states);
    TwoRegisters(held, states);
    OfferedIsNotNewer(StatusOf(r), StatusOffers(states));
    OfferedIsNotNewer(BookmarkOf(r), BookmarkOffers(states));
    UntouchedIff(StatusOf(held), StatusOffers(states));
    UntouchedIff(BookmarkOf(held), BookmarkOffers(states));
    SameReading(ApplyAll(held, states), held);
  }
}
